/** The sizing of a large FAT32 volume and the sectors that formatting writes (format_fat32.c). Every 32-bit expression
    is computed modulo 2^32, and shown not to wrap around. */
module Fat32 {

  const TWO32: nat := 0x1_0000_0000
  const KB: nat := 1024
  const MB: nat := 1024 * 1024
  const GB: nat := 1024 * MB
  const TB: nat := 1024 * GB
  const FATS: nat := 2
  const BACKUP: nat := 6
  const BURST: nat := 128

  /** The value of a 32-bit unsigned expression. */
  function Wrap(x: int): (r: nat)
    ensures r < TWO32
    ensures 0 <= x < TWO32 ==> r == x
  {
    x % TWO32
  }

  /** The sector sizes of disks. */
  predicate SectorSize(b: nat) {
    b == 512 || b == 1024 || b == 2048 || b == 4096
  }

  /** GetFATSizeSectors, in 64 bits but for the first difference and the result. */
  function FatSectors(total: nat, reserved: nat, perCluster: nat, fats: nat, bytes: nat): nat
    requires perCluster * bytes / 4 + fats > 0
  {
    Wrap((Wrap(total - reserved) + 2 * perCluster) / (perCluster * bytes / 4 + fats) + 1)
  }

  /** The volumes in question: 65536 to 2^32 - 2 sectors, 1 to 128 sectors per cluster. */
  ghost predicate Volume(total: nat, perCluster: nat, bytes: nat) {
    65536 <= total < TWO32 - 1 && 1 <= perCluster <= 128 && SectorSize(bytes)
  }

  lemma Product(a: nat, b: nat, s: nat)
    ensures a <= b ==> a * s <= b * s
    ensures a < b && s > 0 ==> a * s < b * s
  {}

  /** D, the denominator: the FAT entries of a sector's worth of clusters, in sectors, and the sectors of the FATs. */
  function Denominator(perCluster: nat, bytes: nat): nat {
    perCluster * bytes / 4 + FATS
  }

  lemma DenominatorIs(perCluster: nat, bytes: nat)
    requires SectorSize(bytes)
    ensures Denominator(perCluster, bytes) == perCluster * (bytes / 4) + 2
    ensures Denominator(perCluster, bytes) >= 128 * perCluster + 2
  {
    if bytes == 512 {} else if bytes == 1024 {} else if bytes == 2048 {} else {}
  }

  /** The quotient that is rounded up. */
  lemma Quotient(n: nat, d: nat) returns (q: nat)
    requires d > 0
    ensures q == n / d && q * d <= n < q * d + d
  {
    q := n / d;
    assert n == q * d + n % d;
  }

  /** The FAT takes up a small part of the volume. */
  lemma FatIsSmall(total: nat, perCluster: nat, bytes: nat)
    requires Volume(total, perCluster, bytes)
    ensures var fat := FatSectors(total, 0, perCluster, FATS, bytes);
            && 0 < fat && 128 * fat <= total + 2 + 128
            && fat == (total + 2 * perCluster) / Denominator(perCluster, bytes) + 1
  {
    var d := Denominator(perCluster, bytes);
    DenominatorIs(perCluster, bytes);
    var q := Quotient(total + 2 * perCluster, d);
    Bounded(q, d, total, perCluster);
  }

  lemma Bounded(q: nat, d: nat, total: nat, perCluster: nat)
    requires q * d <= total + 2 * perCluster && d >= 128 * perCluster && perCluster >= 1
    ensures 128 * q <= total + 2
  {
    Product(128 * perCluster, d, q);
    assert (128 * perCluster) * q == (128 * q) * perCluster;
    Product(total + 3, 128 * q, perCluster);
    Product(1, perCluster, total);
    assert (total + 3) * perCluster == total * perCluster + 3 * perCluster;
    assert 1 * total == total && perCluster * total == total * perCluster;
  }

  /** The FAT has room for an entry for every cluster of what is left, and for the two reserved entries. */
  lemma FatHasRoom(total: nat, perCluster: nat, bytes: nat, area: nat, clusters: nat)
    requires Volume(total, perCluster, bytes)
    requires area + FATS * FatSectors(total, 0, perCluster, FATS, bytes) <= total && clusters == area / perCluster
    ensures (clusters + 2) * 4 <= FatSectors(total, 0, perCluster, FATS, bytes) * bytes
  {
    var fat, d, k := FatSectors(total, 0, perCluster, FATS, bytes), Denominator(perCluster, bytes), bytes / 4;
    FatIsSmall(total, perCluster, bytes);
    DenominatorIs(perCluster, bytes);
    var q := Quotient(total + 2 * perCluster, d);
    var c := Quotient(area, perCluster);
    hide FatSectors, Denominator;
    Room(fat, d, k, total, perCluster, area, clusters);
    FourTimes(fat, k, bytes);
  }

  lemma FourTimes(fat: nat, k: nat, bytes: nat)
    requires SectorSize(bytes) && k == bytes / 4
    ensures fat * bytes == 4 * (fat * k)
  {
    assert bytes == 4 * k;
  }

  lemma Room(fat: nat, d: nat, k: nat, total: nat, perCluster: nat, area: nat, clusters: nat)
    requires total + 2 * perCluster < fat * d && d == perCluster * k + 2 && perCluster > 0
    requires area + 2 * fat <= total && clusters * perCluster <= area
    ensures clusters + 2 < fat * k
  {
    assert fat * d == fat * (perCluster * k) + 2 * fat;
    assert fat * (perCluster * k) == (fat * k) * perCluster;
    assert (clusters + 2) * perCluster == clusters * perCluster + 2 * perCluster;
    Product(fat * k, clusters + 2, perCluster);
  }

  // ---- The layout of the volume. ----

  /** The default cluster size for a partition. */
  function DefaultCluster(length: nat): nat {
    if length < 64 * MB then 512
    else if length < 128 * MB then 1 * KB
    else if length < 256 * MB then 2 * KB
    else if length < 8 * GB then 4 * KB
    else if length < 16 * GB then 8 * KB
    else if length < 32 * GB then 16 * KB
    else if length < 2 * TB then 32 * KB
    else 64 * KB
  }

  /** A default cluster is at least one sector and at most 128. */
  lemma DefaultIsSound(length: nat, bytes: nat)
    requires SectorSize(bytes) && length / bytes >= 65536
    ensures 1 <= DefaultCluster(length) / bytes <= 128
  {}

  datatype Sizes = Sizes(total: nat, perCluster: nat, fat: nat, reserved: nat, clusters: nat)
  {
    function DataStart(): nat { reserved + FATS * fat }
  }

  datatype Outcome = Done | TooSmall | TooBig | TooManyClusters | TooFewClusters | FatTooSmall

  ghost predicate SoundSizes(z: Sizes, bytes: nat) {
    && Volume(z.total, z.perCluster, bytes)
    && (z.DataStart() * bytes) % MB == 0 && 32 <= z.reserved <= 31 + MB / bytes && z.fat > 0
    && z.DataStart() + z.clusters * z.perCluster <= z.total < z.DataStart() + (z.clusters + 1) * z.perCluster
    && 65536 <= z.clusters <= 0x0fff_ffff && (z.clusters + 2) * 4 <= z.fat * bytes
  }

  /** The sizing part of FormatLargeFAT32. The last check never fires, and what passes the others is sound. */
  method Size(length: nat, bytes: nat, clusterSize: nat) returns (outcome: Outcome, z: Sizes)
    requires SectorSize(bytes) && (clusterSize != 0 ==> 1 <= clusterSize / bytes <= 128)
    ensures outcome == TooSmall <==> length / bytes < 65536
    ensures outcome == TooBig <==> length / bytes >= 0xffff_ffff
    ensures outcome != FatTooSmall
    ensures outcome == Done ==> SoundSizes(z, bytes) && z.total == length / bytes
    ensures outcome == Done ==>
      z.perCluster == (if clusterSize == 0 then DefaultCluster(length) else clusterSize) / bytes
  {
    z := Sizes(0, 0, 0, 0, 0);
    var qTotal := length / bytes;
    if qTotal < 65536 {
      return TooSmall, z;
    }
    if qTotal >= 0xffff_ffff {
      return TooBig, z;
    }
    var cluster := if clusterSize == 0 then DefaultCluster(length) else clusterSize;
    if clusterSize == 0 { DefaultIsSound(length, bytes); }
    outcome, z := SizeVolume(qTotal, bytes, cluster / bytes);
  }

  /** The sizes for a number of sectors. */
  method SizeVolume(total: nat, bytes: nat, perCluster: nat) returns (outcome: Outcome, z: Sizes)
    requires Volume(total, perCluster, bytes)
    ensures outcome == Done || outcome == TooManyClusters || outcome == TooFewClusters
    ensures outcome == Done ==> SoundSizes(z, bytes) && z.total == total && z.perCluster == perCluster
  {
    DenominatorIs(perCluster, bytes);
    var fat := FatSectors(total, 0, perCluster, FATS, bytes);
    FatIsSmall(total, perCluster, bytes);
    hide FatSectors, DefaultCluster;
    var system := Wrap(32 + FATS * fat);
    var align := MB / bytes;
    var aligned := Wrap(Wrap(system + align - 1) / align * align);
    Aligned(system, bytes);
    var reserved := Wrap(aligned - FATS * fat);
    assert reserved == aligned - 2 * fat;
    var user := Wrap(total - reserved - FATS * fat);
    assert user == total - aligned;
    var clusters := user / perCluster;
    var q := Quotient(user, perCluster);
    z := Sizes(total, perCluster, fat, reserved, clusters);
    if clusters > 0x0fff_ffff {
      return TooManyClusters, z;
    }
    if clusters < 65536 {
      return TooFewClusters, z;
    }
    FatHasRoom(total, perCluster, bytes, user, clusters);
    var needed := (clusters * 4 + bytes - 1) / bytes;
    Needed(clusters, fat, bytes);
    if needed > fat {
      return FatTooSmall, z;
    }
    Sound(z, bytes, aligned, system, user);
    outcome := Done;
  }

  lemma Sound(z: Sizes, bytes: nat, aligned: nat, system: nat, user: nat)
    requires Volume(z.total, z.perCluster, bytes) && system == 32 + 2 * z.fat && z.fat > 0
    requires system <= aligned < system + MB / bytes && (aligned * bytes) % MB == 0 && z.reserved == aligned - 2 * z.fat
    requires user == z.total - aligned && z.clusters * z.perCluster <= user < z.clusters * z.perCluster + z.perCluster
    requires 65536 <= z.clusters <= 0x0fff_ffff && (z.clusters + 2) * 4 <= z.fat * bytes
    ensures SoundSizes(z, bytes)
  {
    assert z.DataStart() == aligned;
    assert (z.clusters + 1) * z.perCluster == z.clusters * z.perCluster + z.perCluster;
  }

  lemma Aligned(system: nat, bytes: nat)
    requires SectorSize(bytes)
    ensures var align := MB / bytes;
            var aligned := (system + align - 1) / align * align;
            system <= aligned < system + align && (aligned * bytes) % MB == 0
  {
    if bytes == 512 {} else if bytes == 1024 {} else if bytes == 2048 {} else {}
  }

  lemma Needed(clusters: nat, fat: nat, bytes: nat)
    requires SectorSize(bytes) && (clusters + 2) * 4 <= fat * bytes
    ensures (clusters * 4 + bytes - 1) / bytes <= fat
  {
    if bytes == 512 {} else if bytes == 1024 {} else if bytes == 2048 {} else {}
  }

  // ---- The sectors that are written. ----

  datatype Sector = Zeros | Boot | FsInfo | FirstOfFat

  type Disk = map<nat, Sector>

  /** What the first sectors hold after formatting. */
  function Formatted(z: Sizes, s: nat): Sector {
    if s == 0 || s == BACKUP then Boot
    else if s == 1 || s == BACKUP + 1 then FsInfo
    else if s == z.reserved || s == z.reserved + z.fat then FirstOfFat
    else Zeros
  }

  /** What they hold after the first copies of the boot sectors, and after the heads of the first FATs. */
  function WithCopies(s: nat, copies: nat): Sector {
    if (s == 0 && copies > 0) || (s == BACKUP && copies > 1) then Boot
    else if (s == 1 && copies > 0) || (s == BACKUP + 1 && copies > 1) then FsInfo
    else Zeros
  }

  function WithHeads(z: Sizes, s: nat, heads: nat): Sector {
    if (s == z.reserved && heads == 0) || (s == z.reserved + z.fat && heads <= 1) then Zeros else Formatted(z, s)
  }

  method WriteSectors(disk: Disk, start: nat, count: nat, what: Sector) returns (after: Disk)
    ensures forall s: nat :: s in after <==> s in disk || start <= s < start + count
    ensures forall s | s in after :: after[s] == if start <= s < start + count then what else disk[s]
  {
    after := disk;
    for i := 0 to count
      invariant forall s: nat :: s in after <==> s in disk || start <= s < start + i
      invariant forall s | s in after :: after[s] == if start <= s < start + i then what else disk[s]
    {
      after := after[start + i := what];
    }
  }

  /** The zeroing loop: it covers the system area, and goes less than two bursts beyond it. */
  method ZeroSystemArea(size: nat) returns (disk: Disk, end: nat)
    requires size + BURST <= TWO32 - BURST
    ensures size <= end < size + 2 * BURST
    ensures forall s: nat :: s in disk <==> s < end
    ensures forall s | s in disk :: disk[s] == Zeros
  {
    disk, end := map[], 0;
    var i := 0;
    while i < Wrap(size + BURST - 1)
      invariant i < size + 2 * BURST - 1 && i % BURST == 0
      invariant forall s: nat :: s in disk <==> s < i
      invariant forall s | s in disk :: disk[s] == Zeros
    {
      disk := WriteSectors(disk, i, BURST, Zeros);
      i := Wrap(i + BURST);
    }
    end := i;
  }

  /** The writing part: the boot sector and its backup, the heads of both FATs, and zeros everywhere else up to the end
      of the root directory's cluster; nothing is written outside the volume. */
  method WriteVolume(z: Sizes, bytes: nat) returns (disk: Disk)
    requires SoundSizes(z, bytes)
    ensures forall s: nat | s < z.DataStart() + z.perCluster :: s in disk && disk[s] == Formatted(z, s)
    ensures forall s | s in disk :: s < z.total
  {
    var system := Wrap(z.reserved + FATS * z.fat + z.perCluster);
    FitsVolume(z, bytes);
    var end;
    disk, end := ZeroSystemArea(system);
    for i := 0 to 2
      invariant forall s: nat :: s in disk <==> s < end
      invariant forall s | s in disk :: disk[s] == WithCopies(s, i)
    {
      var start := if i == 0 then 0 else BACKUP;
      disk := WriteSectors(disk, start, 1, Boot);
      disk := WriteSectors(disk, start + 1, 1, FsInfo);
    }
    for i := 0 to FATS
      invariant forall s: nat :: s in disk <==> s < end
      invariant forall s | s in disk :: disk[s] == WithHeads(z, s, i)
    {
      disk := WriteSectors(disk, z.reserved + i * z.fat, 1, FirstOfFat);
    }
  }

  lemma FitsVolume(z: Sizes, bytes: nat)
    requires SoundSizes(z, bytes)
    ensures z.DataStart() + z.perCluster + 2 * BURST <= z.total
  {
    Product(65536, z.clusters, z.perCluster);
    assert 65536 * z.perCluster >= z.perCluster + 65535;
  }
}
