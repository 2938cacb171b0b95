/**
 FAT16 and FAT32 volumes of xtask/src/fat32_write.rs: the geometry read from the boot sector, the
 places of the allocation table, of the root directory and of the clusters, and the scan of a
 directory (Microsoft FAT32 File System Specification 1.03, sections "Boot Sector and BPB" and
 "FAT Directory Structure").
 */
module FatVolume {
  import opened Base
  import opened Words
  import opened DirSlots
  import opened FatTable
  import opened Disk

  const SECTOR: nat := 512
  const SLOTS: nat := 16

  /** Listing a directory stops once it has more sectors than this. */
  const SECTOR_LIMIT: nat := 65536

  /** Clusters are numbered from 2. */
  type Cluster = c: nat | c >= 2 witness 2

  datatype Vol = Vol(base: nat, spc: nat, reserved: nat, numFats: nat, spf: nat, kind: Kind,
                     rootOff: nat, rootSectors: nat, dataStart: nat)

  datatype Error =
    | NoSignature | SectorSize | NoClusterSize | BadFat16 | BadFat32 | BadRootCluster | ShortImage
    | NotFound | NotContiguous | ChainEnd | Empty | OtherSize | NoSpace | DirectoryFull
    | BelowFirst // 2 is taken from a smaller cluster number, which a build with overflow checks does not survive

  // ---------------------------------------------------------------- the boot sector

  /** The volume at a partition's first sector, with each refusal in the order it is checked. */
  function ReadVol(img: Bytes, lba: nat): (r: Result<Vol, Error>)
    ensures r.Ok? ==> Geometry(r.value) && r.value.base == lba * SECTOR
  {
    var base := lba * SECTOR;
    if |img| < base + SECTOR then Err(ShortImage)
    else if img[base + 510] != 0x55 || img[base + 511] != 0xaa then Err(NoSignature)
    else if Num(img, base + 11, 2) != SECTOR then Err(SectorSize)
    else if img[base + 13] == 0 then Err(NoClusterSize)
    else
      var spc: nat := img[base + 13];
      var reserved, numFats := Num(img, base + 14, 2), img[base + 16];
      var rootEntries, spf16, spf32 := Num(img, base + 17, 2), Num(img, base + 22, 2), Num(img, base + 36, 4);
      if rootEntries != 0 then
        if spf16 == 0 then Err(BadFat16) else Ok(Vol16(base, spc, reserved, numFats, spf16, rootEntries))
      else if spf32 == 0 then Err(BadFat32)
      else if Num(img, base + 44, 4) < 2 then Err(BadRootCluster)
      else Ok(Vol32(base, spc, reserved, numFats, spf32, Num(img, base + 44, 4)))
  }

  function Vol16(base: nat, spc: nat, reserved: nat, numFats: nat, spf: nat, rootEntries: nat): (v: Vol)
    requires spc > 0 && spf > 0
    ensures Geometry(v) && v.base == base
  {
    FatSectors(reserved, numFats, spf);
    var sectors := (rootEntries * 32 + SECTOR - 1) / SECTOR;
    var rootOff := base + (reserved + numFats * spf) * SECTOR;
    Vol(base, spc, reserved, numFats, spf, Fat16, rootOff, sectors, rootOff + sectors * SECTOR)
  }

  function Vol32(base: nat, spc: nat, reserved: nat, numFats: nat, spf: nat, rootCluster: nat): (v: Vol)
    requires spc > 0 && spf > 0 && rootCluster >= 2
    ensures Geometry(v) && v.base == base && v.kind.Fat32?
  {
    var dataStart := base + (reserved + numFats * spf) * SECTOR;
    var v := Vol(base, spc, reserved, numFats, spf, Fat32, dataStart + (rootCluster - 2) * (spc * SECTOR), spc, dataStart);
    Vol32Root(v, rootCluster - 2);
    v
  }

  /** The root cluster is found again from its offset. */
  lemma Vol32Root(v: Vol, c: nat)
    requires v.spc > 0 && v.spf > 0 && v.kind.Fat32?
    requires v.dataStart == v.base + (v.reserved + v.numFats * v.spf) * SECTOR && v.rootOff == v.dataStart + c * (v.spc * SECTOR)
    ensures Geometry(v) && RootCluster(v) == c + 2
  {
    FatSectors(v.reserved, v.numFats, v.spf);
    var k := c * ClusterBytes(v);
    assert v.rootOff - v.dataStart == k;
    Quotient(c, ClusterBytes(v));
  }

  lemma FatSectors(reserved: nat, numFats: nat, spf: nat)
    ensures (reserved + numFats * spf) * SECTOR == reserved * SECTOR + numFats * (spf * SECTOR)
  {
    assert numFats * spf * SECTOR == numFats * (spf * SECTOR);
  }

  /** The reserved sectors, the tables, a FAT16 root directory and the clusters follow each other. */
  predicate Geometry(vol: Vol) {
    && vol.spc > 0 && vol.spf > 0
    && (vol.kind.Fat16? ==> vol.rootOff == FatEnd(vol) && vol.dataStart == vol.rootOff + vol.rootSectors * SECTOR)
    && (vol.kind.Fat32? ==> vol.dataStart == FatEnd(vol) && vol.rootOff >= vol.dataStart
                            && (vol.rootOff - vol.dataStart) % ClusterBytes(vol) == 0)
  }

  function FatOff(vol: Vol): nat {
    vol.base + vol.reserved * SECTOR
  }

  function FatBytes(vol: Vol): nat {
    vol.spf * SECTOR
  }

  function FatEnd(vol: Vol): nat {
    FatOff(vol) + vol.numFats * FatBytes(vol)
  }

  function ClusterBytes(vol: Vol): (n: nat)
    ensures vol.spc > 0 ==> n > 0
  {
    vol.spc * SECTOR
  }

  function ClusterOff(vol: Vol, c: nat): nat
    requires c >= 2
  {
    vol.dataStart + (c - 2) * ClusterBytes(vol)
  }

  function ClustersNeeded(size: nat, clusterBytes: nat): (n: nat)
    requires clusterBytes > 0
    ensures size == 0 <==> n == 0
  {
    if size == 0 then 0 else
      DivCeilPositive(size, clusterBytes);
      (size + clusterBytes - 1) / clusterBytes
  }

  lemma DivCeilPositive(size: nat, d: nat)
    requires size > 0 && d > 0
    ensures (size + d - 1) / d > 0
  {
    var q := (size + d - 1) / d;
    assert size + d - 1 == q * d + (size + d - 1) % d;
    PositiveFactor(q, d);
  }

  lemma PositiveFactor(q: nat, d: nat)
    requires q * d > 0
    ensures q > 0
  {
  }

  lemma NeededCovers(size: nat, d: nat)
    requires d > 0
    ensures size <= ClustersNeeded(size, d) * d
    ensures size > 0 ==> (ClustersNeeded(size, d) - 1) * d < size
  {
    if size > 0 {
      var q := (size + d - 1) / d;
      assert size + d - 1 == q * d + (size + d - 1) % d;
      assert (q - 1) * d == q * d - d;
    }
  }

  /** Bytes of a run of clusters, and runs that share no cluster share no byte. */
  lemma RunBytes(vol: Vol, s: nat, n: nat)
    requires s >= 2
    ensures ClusterOff(vol, s) + n * ClusterBytes(vol) == ClusterOff(vol, s + n)
    ensures ClusterOff(vol, s) >= vol.dataStart
  {
    assert (s - 2) * ClusterBytes(vol) + n * ClusterBytes(vol) == (s + n - 2) * ClusterBytes(vol);
  }

  lemma ClusterOrder(vol: Vol, c: nat, d: nat)
    requires 2 <= c <= d
    ensures ClusterOff(vol, c) <= ClusterOff(vol, d)
  {
    MulMono(c - 2, d - 2, ClusterBytes(vol));
  }

  // ---------------------------------------------------------------- the table in the image

  /** The image holds the volume: one or two tables after the boot sector, an entry count the clusters cover, and all of
      it inside the image. */
  ghost predicate Holds(img: Bytes, vol: Vol) {
    && Geometry(vol) && 1 <= vol.numFats <= 2 && vol.reserved > 0 && vol.base % SECTOR == 0
    && Entries(vol) < EocMark(vol.kind)
    && ClusterOff(vol, Entries(vol)) <= |img|
  }

  function Entries(vol: Vol): (n: nat)
    ensures vol.spf > 0 ==> n >= 2
    ensures n == FatBytes(vol) / Width(vol.kind)
  {
    FatBytes(vol) / Width(vol.kind)
  }

  lemma HoldsTable(img: Bytes, vol: Vol)
    requires Holds(img, vol)
    ensures FatOff(vol) + FatBytes(vol) <= FatEnd(vol) <= vol.dataStart <= |img|
    ensures vol.numFats == 2 ==> FatOff(vol) + 2 * FatBytes(vol) == FatEnd(vol)
    ensures vol.numFats == 1 ==> FatOff(vol) + FatBytes(vol) == FatEnd(vol)
  {
    RunBytes(vol, 2, Entries(vol) - 2);
    OneOrTwo(vol.numFats, FatBytes(vol));
  }

  lemma OneOrTwo(n: nat, size: nat)
    requires 1 <= n <= 2
    ensures size <= n * size
    ensures n == 2 ==> n * size == 2 * size
    ensures n == 1 ==> n * size == size
  {
  }

  ghost function FatFolded(img: Bytes, vol: Vol, k: nat): (t: Table)
    requires Holds(img, vol)
    ensures |t| == Entries(vol) && Numbered(vol.kind, t)
    decreases k
  {
    if k == 0 then
      HoldsTable(img, vol);
      View(vol.kind, img[FatOff(vol)..FatOff(vol) + FatBytes(vol)])
    else FatFolded(img, vol, k - 1)
  }

  /** The first copy of the table; folded, see `FatIs`. */
  ghost function Fat(img: Bytes, vol: Vol): (t: Table)
    requires Holds(img, vol)
    ensures |t| == Entries(vol) && Numbered(vol.kind, t)
  {
    FatFolded(img, vol, FOLDS)
  }

  lemma {:induction false} FatUnfolds(img: Bytes, vol: Vol, k: nat)
    requires Holds(img, vol)
    ensures FatOff(vol) + FatBytes(vol) <= |img|
    ensures FatFolded(img, vol, k) == View(vol.kind, img[FatOff(vol)..FatOff(vol) + FatBytes(vol)])
    decreases k
  {
    HoldsTable(img, vol);
    if k > 0 {
      FatUnfolds(img, vol, k - 1);
    }
  }

  lemma FatIs(img: Bytes, vol: Vol)
    requires Holds(img, vol)
    ensures FatOff(vol) + FatBytes(vol) <= |img|
    ensures Fat(img, vol) == View(vol.kind, img[FatOff(vol)..FatOff(vol) + FatBytes(vol)])
  {
    FatUnfolds(img, vol, FOLDS);
  }

  /** A run of clusters inside the table lies inside the image, after the tables. */
  lemma RunRoom(img: Bytes, vol: Vol, s: nat, n: nat, size: nat)
    requires Holds(img, vol) && s >= 2 && s + n <= Entries(vol) && size <= n * ClusterBytes(vol)
    ensures FatEnd(vol) <= vol.dataStart <= ClusterOff(vol, s) && ClusterOff(vol, s) + size <= ClusterOff(vol, s + n) <= |img|
  {
    HoldsTable(img, vol);
    RunBytes(vol, s, n);
    ClusterOrder(vol, s + n, Entries(vol));
  }

  /** The first `size` bytes of a run avoid every other cluster. */
  lemma RunsInOrder(vol: Vol, s: Cluster, n: nat, size: nat, c: Cluster)
    requires size <= n * ClusterBytes(vol) && !(s <= c < s + n)
    ensures ClusterOff(vol, c + 1) <= ClusterOff(vol, s) || ClusterOff(vol, s) + size <= ClusterOff(vol, c)
  {
    RunBytes(vol, s, n);
    if c < s {
      ClusterOrder(vol, c + 1, s);
    } else {
      ClusterOrder(vol, s + n, c);
    }
  }

  // ---------------------------------------------------------------- directory slots

  function SlotOff(secs: seq<nat>, i: nat): nat
    requires i < SLOTS * |secs|
  {
    secs[i / SLOTS] + i % SLOTS * SLOT
  }

  ghost predicate SectorsInside(img: Bytes, secs: seq<nat>) {
    forall j :: 0 <= j < |secs| ==> secs[j] + SECTOR <= |img|
  }

  lemma SlotInside(img: Bytes, secs: seq<nat>, i: nat)
    requires SectorsInside(img, secs) && i < SLOTS * |secs|
    ensures SlotOff(secs, i) + SLOT <= |img|
    ensures secs[i / SLOTS] <= SlotOff(secs, i) && SlotOff(secs, i) + SLOT <= secs[i / SLOTS] + SECTOR
  {
  }

  /** Whether a slot is the entry looked for: not deleted, not a long-name part or label, same name and kind. */
  predicate Matches(img: Bytes, s: nat, name: Name, wantDir: bool)
    requires s + SLOT <= |img|
  {
    !NotAFile(img[s], img[s + 11]) && img[s..s + 11] == name && wantDir == IsDir(img[s + 11])
  }

  /** The first matching slot from `i` on and before the end mark. */
  ghost function Scan(img: Bytes, secs: seq<nat>, i: nat, name: Name, wantDir: bool): (r: Option<nat>)
    requires SectorsInside(img, secs) && i <= SLOTS * |secs|
    ensures r.Some? ==> i <= r.value < SLOTS * |secs|
    decreases SLOTS * |secs| - i
  {
    if i == SLOTS * |secs| then None
    else
      SlotInside(img, secs, i);
      var s := SlotOff(secs, i);
      if img[s] == 0 then None
      else if Matches(img, s, name, wantDir) then Some(i)
      else Scan(img, secs, i + 1, name, wantDir)
  }

  /** The entry found: its slot, first cluster and size. */
  datatype Found = Found(slot: nat, cluster: nat, size: nat)

  ghost function Lookup(img: Bytes, secs: seq<nat>, name: Name, wantDir: bool): Option<Found>
    requires SectorsInside(img, secs)
  {
    match Scan(img, secs, 0, name, wantDir)
    case None => None
    case Some(i) =>
      SlotInside(img, secs, i);
      Some(Found(i, FirstCluster(img, SlotOff(secs, i)), FileSize(img, SlotOff(secs, i))))
  }

  method FindEntryLoc(disk: Image, secs: seq<nat>, name: Name, wantDir: bool) returns (r: Option<Found>)
    requires SectorsInside(disk.img, secs)
    ensures r == Lookup(disk.img, secs, name, wantDir)
  {
    var at := FindSlot(disk, secs, name, wantDir);
    if at.None? {
      return None;
    }
    SlotInside(disk.img, secs, at.value);
    var s := SlotOff(secs, at.value);
    r := Some(Found(at.value, FirstCluster(disk.img, s), FileSize(disk.img, s)));
  }

  method FindSlot(disk: Image, secs: seq<nat>, name: Name, wantDir: bool) returns (r: Option<nat>)
    requires SectorsInside(disk.img, secs)
    ensures r == Scan(disk.img, secs, 0, name, wantDir)
  {
    for j := 0 to |secs|
      invariant Scan(disk.img, secs, 0, name, wantDir) == Scan(disk.img, secs, SLOTS * j, name, wantDir)
    {
      var over;
      r, over := FindInSector(disk, secs, j, name, wantDir);
      if over {
        return;
      }
    }
    return None;
  }

  /** One sector: a match, the end mark (`over` without a match), or on to the next sector. */
  method FindInSector(disk: Image, secs: seq<nat>, j: nat, name: Name, wantDir: bool) returns (r: Option<nat>, over: bool)
    requires SectorsInside(disk.img, secs) && j < |secs|
    ensures over ==> Scan(disk.img, secs, SLOTS * j, name, wantDir) == r
    ensures !over ==> Scan(disk.img, secs, SLOTS * j, name, wantDir) == Scan(disk.img, secs, SLOTS * (j + 1), name, wantDir)
  {
    for i := 0 to SLOTS
      invariant Scan(disk.img, secs, SLOTS * j, name, wantDir) == Scan(disk.img, secs, SLOTS * j + i, name, wantDir)
    {
      ScanStep(disk.img, secs, j, i, name, wantDir);
      var s := secs[j] + i * SLOT;
      if disk.img[s] == 0 {
        return None, true;
      }
      if Matches(disk.img, s, name, wantDir) {
        return Some(SLOTS * j + i), true;
      }
    }
    r, over := None, false;
  }

  lemma ScanStep(img: Bytes, secs: seq<nat>, j: nat, i: nat, name: Name, wantDir: bool)
    requires SectorsInside(img, secs) && j < |secs| && i < SLOTS
    ensures SLOTS * j + i < SLOTS * |secs| && secs[j] + i * SLOT + SLOT <= |img|
    ensures Scan(img, secs, SLOTS * j + i, name, wantDir) ==
            if img[secs[j] + i * SLOT] == 0 then None
            else if Matches(img, secs[j] + i * SLOT, name, wantDir) then Some(SLOTS * j + i)
            else Scan(img, secs, SLOTS * j + i + 1, name, wantDir)
  {
    SlotAt(secs, j, i);
    SlotInside(img, secs, SLOTS * j + i);
  }

  lemma SlotAt(secs: seq<nat>, j: nat, i: nat)
    requires j < |secs| && i < SLOTS
    ensures SLOTS * j + i < SLOTS * |secs| && SlotOff(secs, SLOTS * j + i) == secs[j] + i * SLOT
  {
    assert (SLOTS * j + i) / SLOTS == j && (SLOTS * j + i) % SLOTS == i;
  }

  // ---------------------------------------------------------------- the root directory

  function SectorsFrom(off: nat, n: nat): seq<nat> {
    seq(n, (i: nat) => off + i * SECTOR)
  }

  function RootCluster(vol: Vol): nat
    requires Geometry(vol) && vol.kind.Fat32?
  {
    (vol.rootOff - vol.dataStart) / ClusterBytes(vol) + 2
  }

  /** A directory: the fixed root area of FAT16, or the chain that starts at a cluster. */
  datatype Dir = FixedRoot | At(cluster: nat)

  function RootDir(vol: Vol): Dir
    requires Geometry(vol)
  {
    if vol.kind.Fat16? then FixedRoot else At(RootCluster(vol))
  }

  /** The clusters of a directory, in chain order, cut where the listing stops. */
  function DirClusters(vol: Vol, t: Table, c: nat, have: nat): (cs: seq<Cluster>)
    requires vol.spc > 0
    ensures forall x :: x in cs ==> x < |t|
    decreases SECTOR_LIMIT + vol.spc - have
  {
    if c < 2 || c >= |t| || have > SECTOR_LIMIT then []
    else [c] + DirClusters(vol, t, t[c], have + vol.spc)
  }

  function SectorsOf(vol: Vol, clusters: seq<Cluster>): seq<nat>
  {
    if clusters == [] then []
    else SectorsFrom(ClusterOff(vol, clusters[0]), vol.spc) + SectorsOf(vol, clusters[1..])
  }

  function DirSectors(vol: Vol, t: Table, d: Dir): seq<nat>
    requires vol.spc > 0
  {
    match d
    case FixedRoot => SectorsFrom(vol.rootOff, vol.rootSectors)
    case At(c) => SectorsOf(vol, DirClusters(vol, t, c, 0))
  }

  /** A link of a chain in use: it ends the chain or names a cluster of the table. */
  predicate InUse(k: Kind, t: Table, c: nat) {
    c < |t| && t[c] != 0 && (t[c] < |t| || IsEoc(k, t[c]))
  }

  predicate DirOk(vol: Vol, t: Table, d: Dir)
    requires vol.spc > 0
  {
    match d
    case FixedRoot => vol.kind.Fat16?
    case At(c) => 2 <= c < |t| && forall x :: x in DirClusters(vol, t, c, 0) ==> InUse(vol.kind, t, x)
  }

  method DirSectorOffsets(vol: Vol, fat: array<byte>, d: Dir) returns (secs: seq<nat>)
    requires vol.spc > 0 && Numbered(vol.kind, View(vol.kind, fat[..])) && DirOk(vol, View(vol.kind, fat[..]), d)
    ensures secs == DirSectors(vol, View(vol.kind, fat[..]), d)
  {
    if d.FixedRoot? {
      return SectorsFrom(vol.rootOff, vol.rootSectors);
    }
    ghost var t := View(vol.kind, fat[..]);
    var c := d.cluster;
    secs := [];
    assert [] + SectorsOf(vol, DirClusters(vol, t, c, 0)) == SectorsOf(vol, DirClusters(vol, t, c, 0));
    while true
      invariant Listed(vol, t, d.cluster, c, secs) == true
      decreases SECTOR_LIMIT + vol.spc - |secs|
    {
      ListStep(vol, t, d.cluster, c, secs);
      secs := secs + SectorsFrom(ClusterOff(vol, c), vol.spc);
      var next := FatEntry(vol.kind, fat, c);
      if next < 2 || IsEoc(vol.kind, next) || |secs| > SECTOR_LIMIT {
        return;
      }
      c := next;
    }
  }

  /** The sectors `secs` are listed and those from cluster `c` on are still to come. */
  ghost predicate Listed(vol: Vol, t: Table, start: nat, c: nat, secs: seq<nat>)
    requires vol.spc > 0
  {
    && 2 <= c < |t| && |secs| <= SECTOR_LIMIT
    && (forall x :: x in DirClusters(vol, t, c, |secs|) ==> InUse(vol.kind, t, x))
    && SectorsOf(vol, DirClusters(vol, t, start, 0)) == secs + SectorsOf(vol, DirClusters(vol, t, c, |secs|))
  }

  lemma ListStep(vol: Vol, t: Table, start: nat, c: nat, secs: seq<nat>)
    requires vol.spc > 0 && Listed(vol, t, start, c, secs) && Numbered(vol.kind, t)
    ensures c < |t| && c >= 2
    ensures var more := secs + SectorsFrom(ClusterOff(vol, c), vol.spc);
            if t[c] < 2 || IsEoc(vol.kind, t[c]) || |more| > SECTOR_LIMIT
            then SectorsOf(vol, DirClusters(vol, t, start, 0)) == more
            else Listed(vol, t, start, t[c], more)
  {
    var rest := DirClusters(vol, t, t[c], |secs| + vol.spc);
    DirClustersStep(vol, t, c, |secs|);
    SectorsOfCons(vol, c, rest);
    var now := SectorsFrom(ClusterOff(vol, c), vol.spc);
    assert InUse(vol.kind, t, c);
    assert secs + (now + SectorsOf(vol, rest)) == secs + now + SectorsOf(vol, rest);
  }

  lemma DirClustersStep(vol: Vol, t: Table, c: nat, have: nat)
    requires vol.spc > 0 && 2 <= c < |t| && have <= SECTOR_LIMIT
    ensures DirClusters(vol, t, c, have) == [c as Cluster] + DirClusters(vol, t, t[c], have + vol.spc)
    ensures c in DirClusters(vol, t, c, have)
    ensures t[c] >= |t| || t[c] < 2 || have + vol.spc > SECTOR_LIMIT ==> DirClusters(vol, t, t[c], have + vol.spc) == []
  {
  }

  lemma SectorsOfCons(vol: Vol, c: Cluster, rest: seq<Cluster>)
    ensures SectorsOf(vol, [c] + rest) == SectorsFrom(ClusterOff(vol, c), vol.spc) + SectorsOf(vol, rest)
  {
    assert ([c] + rest)[1..] == rest;
  }

  // ---------------------------------------------------------------- where directory sectors lie

  /** A sector of the fixed root area, or of one of the clusters. */
  ghost predicate Home(vol: Vol, clusters: seq<Cluster>, off: nat) {
    || (vol.kind.Fat16? && vol.rootOff <= off && off + SECTOR <= vol.dataStart)
    || exists x :: x in clusters && ClusterOff(vol, x) <= off && off + SECTOR <= ClusterOff(vol, x + 1)
  }

  function ClustersOf(vol: Vol, t: Table, d: Dir): seq<Cluster>
    requires vol.spc > 0
  {
    match d
    case FixedRoot => []
    case At(c) => DirClusters(vol, t, c, 0)
  }

  lemma Multiple(a: nat, b: nat)
    ensures a * (b * SECTOR) % SECTOR == 0 && a * SECTOR % SECTOR == 0
  {
    assert a * (b * SECTOR) == a * b * SECTOR;
  }

  lemma ClusterAligned(vol: Vol, c: nat)
    requires Geometry(vol) && vol.base % SECTOR == 0 && c >= 2
    ensures ClusterOff(vol, c) % SECTOR == 0 && vol.dataStart % SECTOR == 0
    ensures vol.kind.Fat16? ==> vol.rootOff % SECTOR == 0
  {
    Multiple(vol.reserved, 0);
    Multiple(vol.numFats, vol.spf);
    Multiple(c - 2, vol.spc);
    Multiple(vol.rootSectors, 0);
    ModSum(vol.base, vol.reserved * SECTOR);
    ModSum(FatOff(vol), vol.numFats * FatBytes(vol));
    ModSum(FatEnd(vol), vol.rootSectors * SECTOR);
    ModSum(vol.dataStart, (c - 2) * ClusterBytes(vol));
  }

  lemma ModSum(a: nat, b: nat)
    requires a % SECTOR == 0 && b % SECTOR == 0
    ensures (a + b) % SECTOR == 0
  {
  }

  lemma {:induction false} ClusterSectorsHome(vol: Vol, clusters: seq<Cluster>, j: nat)
    requires Geometry(vol) && vol.base % SECTOR == 0
    requires j < |SectorsOf(vol, clusters)|
    ensures Home(vol, clusters, SectorsOf(vol, clusters)[j])
    ensures SectorsOf(vol, clusters)[j] % SECTOR == 0
  {
    var c := clusters[0];
    ClusterAligned(vol, c);
    RunBytes(vol, c, 1);
    if j < vol.spc {
      assert SectorsOf(vol, clusters)[j] == ClusterOff(vol, c) + j * SECTOR;
    } else {
      ClusterSectorsHome(vol, clusters[1..], j - vol.spc);
    }
  }

  lemma SectorsHome(vol: Vol, t: Table, d: Dir, j: nat)
    requires Geometry(vol) && vol.base % SECTOR == 0 && DirOk(vol, t, d) && j < |DirSectors(vol, t, d)|
    ensures Home(vol, ClustersOf(vol, t, d), DirSectors(vol, t, d)[j])
    ensures DirSectors(vol, t, d)[j] % SECTOR == 0
  {
    match d
    case FixedRoot => FixedRootHome(vol, j);
    case At(c) => ClusterSectorsHome(vol, DirClusters(vol, t, c, 0), j);
  }

  lemma FixedRootHome(vol: Vol, j: nat)
    requires Geometry(vol) && vol.base % SECTOR == 0 && vol.kind.Fat16? && j < vol.rootSectors
    ensures vol.rootOff <= vol.rootOff + j * SECTOR && vol.rootOff + j * SECTOR + SECTOR <= vol.dataStart
    ensures (vol.rootOff + j * SECTOR) % SECTOR == 0
  {
    ClusterAligned(vol, 2);
    MulMono(j + 1, vol.rootSectors, SECTOR);
  }

  lemma HomeInside(img: Bytes, vol: Vol, clusters: seq<Cluster>, off: nat)
    requires Holds(img, vol) && Home(vol, clusters, off) && forall x :: x in clusters ==> x < Entries(vol)
    ensures FatEnd(vol) <= off && off + SECTOR <= |img|
  {
    HoldsTable(img, vol);
    if x :| x in clusters && ClusterOff(vol, x) <= off && off + SECTOR <= ClusterOff(vol, x + 1) {
      RunBytes(vol, x, 1);
      ClusterOrder(vol, x + 1, Entries(vol));
    }
  }

  lemma DirInside(img: Bytes, vol: Vol, d: Dir)
    requires Holds(img, vol) && DirOk(vol, Fat(img, vol), d)
    ensures SectorsInside(img, DirSectors(vol, Fat(img, vol), d))
  {
    var secs := DirSectors(vol, Fat(img, vol), d);
    forall j | 0 <= j < |secs|
      ensures secs[j] + SECTOR <= |img|
    {
      SectorsHome(vol, Fat(img, vol), d, j);
      HomeInside(img, vol, ClustersOf(vol, Fat(img, vol), d), secs[j]);
    }
  }

  /** A listing depends only on the entries of its own chain. */
  lemma {:induction false} SameClusters(vol: Vol, t: Table, u: Table, c: nat, have: nat)
    requires vol.spc > 0 && |t| == |u|
    requires forall x :: x in DirClusters(vol, t, c, have) ==> u[x] == t[x]
    ensures DirClusters(vol, u, c, have) == DirClusters(vol, t, c, have)
    decreases SECTOR_LIMIT + vol.spc - have
  {
    if !(c < 2 || c >= |t| || have > SECTOR_LIMIT) {
      assert c in DirClusters(vol, t, c, have);
      forall x | x in DirClusters(vol, t, t[c], have + vol.spc)
        ensures u[x] == t[x]
      {
        assert x in DirClusters(vol, t, c, have);
      }
      SameClusters(vol, t, u, t[c], have + vol.spc);
    }
  }

  lemma SameDir(vol: Vol, t: Table, u: Table, d: Dir)
    requires vol.spc > 0 && |t| == |u| && DirOk(vol, t, d)
    requires forall x :: x in ClustersOf(vol, t, d) ==> u[x] == t[x]
    ensures DirOk(vol, u, d) && DirSectors(vol, u, d) == DirSectors(vol, t, d) && ClustersOf(vol, u, d) == ClustersOf(vol, t, d)
  {
    if d.At? {
      SameClusters(vol, t, u, d.cluster, 0);
    }
  }
}
