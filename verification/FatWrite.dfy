/**
 write_root_file of xtask/src/fat32_write.rs: a new file of the root directory, or one of the same size
 written over.
 */
module FatWrite {
  import opened Base
  import opened DirSlots
  import opened FatTable
  import opened Disk
  import opened FatVolume
  import opened FatFiles
  import opened FatFrame
  import opened FatSlots
  import opened FatGrow
  import opened FatInstall
  import opened FatListing

  /** How often a new entry is tried. */
  const TRIES: nat := 8

  /** Where the entry went, or why it did not. */
  datatype Where = Into(slot: nat) | Full16 | NoCluster | Onto(added: Cluster, gb: Bytes, mid: Bytes)

  /** A root directory that can be listed to its end. */
  ghost predicate RootReady(img: Bytes, vol: Vol) {
    RootHeld(img, vol) && RootEnds(vol, Fat(img, vol))
  }

  ghost function RootSlots(img: Bytes, vol: Vol): seq<Slot>
    requires RootHeld(img, vol)
  {
    Slots(img, SectorsIn(img, vol, RootDir(vol)))
  }

  /** The entry goes into the first free slot; a full FAT32 root directory gets one cluster first. */
  ghost predicate Installed(was: Bytes, now: Bytes, vol: Vol, name: Name, cluster: nat, size: nat, bad: Option<Error>, w: Where)
    requires RootReady(was, vol)
  {
    var t, secs := Fat(was, vol), SectorsIn(was, vol, RootDir(vol));
    match w
    case Into(k) =>
      && FirstFree(Slots(was, secs), Some(k)) && bad == None && SlotOff(secs, k) + SLOT <= |was|
      && now == PutNew(was, SlotOff(secs, k), name, cluster, size)
    case Full16 => FirstFree(Slots(was, secs), None) && vol.kind.Fat16? && bad == Some(DirectoryFull) && now == was
    case NoCluster =>
      FirstFree(Slots(was, secs), None) && vol.kind.Fat32? && NoRun(t, 1) && bad == Some(NoSpace) && now == was
    case Onto(added, gb, mid) =>
      && FirstFree(Slots(was, secs), None) && vol.kind.Fat32? && bad == None
      && RootGrown(was, mid, vol, added, gb) && ClusterOff(vol, added) + SLOT <= |mid|
      && now == PutNew(mid, ClusterOff(vol, added), name, cluster, size)
  }

  /** One pass: the entry goes into the first free slot, if there is one. */
  method InstallFree(disk: Image, secs: seq<nat>, name: Name, cluster: nat, size: nat) returns (k: Option<nat>)
    requires SectorsInside(disk.img, secs)
    modifies disk
    ensures FirstFree(Slots(old(disk.img), secs), k)
    ensures k.None? ==> disk.img == old(disk.img)
    ensures k.Some? ==> SlotOff(secs, k.value) + SLOT <= |disk.img|
                        && disk.img == PutNew(old(disk.img), SlotOff(secs, k.value), name, cluster, size)
  {
    k := FindFree(disk, secs);
    if k.Some? {
      SlotInside(disk.img, secs, k.value);
      InstallAt(disk, secs[k.value / SLOTS], k.value % SLOTS * SLOT, name, cluster, size);
    }
  }

  datatype Pass = Done(slot: nat) | Failed(bad: Error) | Again(added: Cluster)

  /** What one pass of the installation does; `fb` is the table after it. */
  ghost predicate Passed(was: Bytes, now: Bytes, vol: Vol, name: Name, cluster: nat, size: nat, r: Pass, fb: Bytes)
    requires RootHeld(was, vol)
  {
    match r
    case Done(k) =>
      var s := SectorsIn(was, vol, RootDir(vol));
      && FirstFree(RootSlots(was, vol), Some(k)) && SlotOff(s, k) + SLOT <= |was|
      && now == PutNew(was, SlotOff(s, k), name, cluster, size)
    case Failed(bad) =>
      && FirstFree(RootSlots(was, vol), None) && now == was
      && if vol.kind.Fat16? then bad == DirectoryFull else bad == NoSpace && NoRun(Fat(was, vol), 1)
    case Again(added) =>
      && FirstFree(RootSlots(was, vol), None) && vol.kind.Fat32? && RootEnds(vol, Fat(was, vol))
      && RootGrown(was, now, vol, added, fb)
  }

  /** One pass: the entry goes into the first free slot; without one, the root directory grows. */
  method InstallPass(disk: Image, vol: Vol, fat: array<byte>, name: Name, cluster: nat, size: nat) returns (r: Pass)
    requires RootHeld(disk.img, vol) && Loaded(disk.img, vol, fat)
    requires FirstFree(RootSlots(disk.img, vol), None) ==> RootEnds(vol, Fat(disk.img, vol))
    modifies disk, fat
    ensures Passed(old(disk.img), disk.img, vol, name, cluster, size, r, fat[..])
  {
    var secs := DirSectorOffsets(vol, fat, RootDir(vol));
    var k := InstallFree(disk, secs, name, cluster, size);
    if k.Some? {
      return Done(k.value);
    }
    if vol.kind.Fat16? {
      return Failed(DirectoryFull);
    }
    var more := GrowFat32Root(disk, vol, fat);
    r := if more.None? then Failed(NoSpace) else Again(more.value);
  }

  method InstallDirEntry(disk: Image, vol: Vol, name: Name, cluster: nat, size: nat)
    returns (bad: Option<Error>, ghost w: Where)
    requires RootReady(disk.img, vol)
    modifies disk
    ensures Installed(old(disk.img), disk.img, vol, name, cluster, size, bad, w)
  {
    ghost var was, added := disk.img, 2;
    var fat := LoadFat(disk, vol);
    for i := 0 to TRIES
      invariant fat.Length == FatBytes(vol)
      invariant i == 0 || (i == 1 && Passed(was, disk.img, vol, name, cluster, size, Again(added), fat[..]))
      invariant i == 0 ==> disk.img == was && Loaded(was, vol, fat)
    {
      ghost var mid, fb := disk.img, fat[..];
      if i == 1 {
        AfterGrowth(was, mid, vol, name, cluster, size, added, fb);
      }
      var r := InstallPass(disk, vol, fat, name, cluster, size);
      if r.Again? {
        added := r.added;
        continue;
      }
      if i == 0 {
        w := if r.Done? then Into(r.slot) else if vol.kind.Fat16? then Full16 else NoCluster;
        bad := if r.Done? then None else Some(r.bad);
        return;
      }
      SecondPass(was, mid, disk.img, vol, name, cluster, size, added, fb, r);
      return None, Onto(added, fb, mid);
    }
    assert false;
  }

  /** After the root directory has grown, its only free slots are the added ones. */
  lemma AfterGrowth(was: Bytes, now: Bytes, vol: Vol, name: Name, cluster: nat, size: nat, added: Cluster, fb: Bytes)
    requires RootReady(was, vol) && Passed(was, now, vol, name, cluster, size, Again(added), fb)
    ensures RootHeld(now, vol) && RootSlots(now, vol) == RootSlots(was, vol) + Blank(SLOTS * vol.spc)
    ensures Fat(now, vol) == View(vol.kind, fb) && !FirstFree(RootSlots(now, vol), None)
    ensures SectorsIn(now, vol, RootDir(vol)) == SectorsIn(was, vol, RootDir(vol)) + SectorsFrom(ClusterOff(vol, added), vol.spc)
  {
    var secs, more := SectorsIn(was, vol, RootDir(vol)), SectorsFrom(ClusterOff(vol, added), vol.spc);
    GrownListing(was, now, vol, added, fb);
    GrownSlots(was, now, vol, added, fb, secs, more);
    BlanksAdded(RootSlots(was, vol), SLOTS * vol.spc, name, false);
  }

  /** The second pass fills the first added slot. */
  lemma SecondPass(was: Bytes, mid: Bytes, now: Bytes, vol: Vol, name: Name, cluster: nat, size: nat, added: Cluster,
                   fb: Bytes, r: Pass)
    requires RootReady(was, vol) && Passed(was, mid, vol, name, cluster, size, Again(added), fb)
    requires RootHeld(mid, vol) && Passed(mid, now, vol, name, cluster, size, r, fb) && !r.Again?
    ensures Installed(was, now, vol, name, cluster, size, None, Onto(added, fb, mid))
  {
    AfterGrowth(was, mid, vol, name, cluster, size, added, fb);
    SecondSlot(RootSlots(was, vol), SLOTS * vol.spc, r);
    SecondOffset(SectorsIn(was, vol, RootDir(vol)), ClusterOff(vol, added), vol.spc, r.slot);
  }

  lemma SecondOffset(secs: seq<nat>, off: nat, n: nat, k: nat)
    requires n > 0 && k == SLOTS * |secs|
    ensures k < SLOTS * |secs + SectorsFrom(off, n)| && SlotOff(secs + SectorsFrom(off, n), k) == off
  {
  }

  lemma SecondSlot(slots: seq<Slot>, n: nat, r: Pass)
    requires FirstFree(slots, None) && n > 0
    ensures !FirstFree(slots + Blank(n), None)
    ensures r.Done? && FirstFree(slots + Blank(n), Some(r.slot)) ==> r.slot == |slots|
  {
    BlanksAdded(slots, n, Zeros(11), false);
  }

  // ---------------------------------------------------------------- writing a file

  /** What a write did: over the old bytes, nothing, or into new clusters marked and filled (`mid`) before the entry. */
  datatype Write = Over | Nothing | Fresh(start: nat, fb: Bytes, mid: Bytes, entry: Where)

  /** An entry of that name and size is written over; if it names a cluster, the bytes are inside the image. */
  ghost predicate Writable(img: Bytes, vol: Vol, name: Name, size: nat) {
    && RootReady(img, vol)
    && var f := RootEntry(img, vol, name);
       f.Some? && f.value.size == size && f.value.cluster >= 2 ==> ClusterOff(vol, f.value.cluster) + size <= |img|
  }

  /** The clusters marked and the bytes written, before the entry. */
  ghost predicate Stored(was: Bytes, mid: Bytes, vol: Vol, data: Bytes, start: nat, fb: Bytes)
    requires Holds(was, vol)
  {
    var t, n := Fat(was, vol), ClustersNeeded(|data|, ClusterBytes(vol));
    && FirstRun(t, start, n) && View(vol.kind, fb) == Marked(vol.kind, t, start, n)
    && InRun(was, vol, fb, start, n, data) && mid == Laid(was, vol, fb, start, data)
  }

  ghost predicate WriteAnswer(was: Bytes, now: Bytes, vol: Vol, name: Name, data: Bytes, bad: Option<Error>, w: Write)
    requires Writable(was, vol, name, |data|)
  {
    var t, n := Fat(was, vol), ClustersNeeded(|data|, ClusterBytes(vol));
    match RootEntry(was, vol, name)
    case Some(f) =>
      if f.size == |data| && f.cluster < 2 then w == Nothing && bad == Some(BelowFirst) && now == was
      else if f.size == |data| then w == Over && bad == None && now == Splice(was, ClusterOff(vol, f.cluster), data)
      else w == Nothing && bad == Some(OtherSize) && now == was
    case None =>
      if n == 0 then w == Nothing && bad == Some(Empty) && now == was
      else if w == Nothing then NoRun(t, n) && bad == Some(NoSpace) && now == was
      else
        && w.Fresh? && Stored(was, w.mid, vol, data, w.start, w.fb) && RootReady(w.mid, vol)
        && Installed(w.mid, now, vol, name, w.start, |data|, bad, w.entry)
  }

  /** The directory is untouched when the bytes have been stored. */
  lemma StoredReady(was: Bytes, mid: Bytes, vol: Vol, data: Bytes, start: nat, fb: Bytes)
    requires RootReady(was, vol) && data != [] && Stored(was, mid, vol, data, start, fb)
    ensures RootReady(mid, vol) && SectorsIn(mid, vol, RootDir(vol)) == SectorsIn(was, vol, RootDir(vol))
    ensures RootSlots(mid, vol) == RootSlots(was, vol)
    ensures Fat(mid, vol) == View(vol.kind, fb) && Mirrored(mid, vol)
    ensures ClustersOf(vol, Fat(mid, vol), RootDir(vol)) == ClustersOf(vol, Fat(was, vol), RootDir(vol))
  {
    var n, dir := ClustersNeeded(|data|, ClusterBytes(vol)), RootDir(vol);
    LaidTables(was, mid, vol, fb, start, n, data);
    forall x | x in ClustersOf(vol, Fat(was, vol), dir)
      ensures View(vol.kind, fb)[x] == Fat(was, vol)[x]
    {
      DirAvoidsFree(vol, Fat(was, vol), dir, start, n, x);
    }
    LaidListing(was, mid, vol, fb, start, n, data, dir);
    LaidSlots(was, mid, vol, fb, start, n, data, dir, SectorsIn(was, vol, dir));
    if vol.kind.Fat32? {
      StillEnds(vol, Fat(was, vol), Fat(mid, vol), RootCluster(vol), 0);
    }
  }

  lemma {:induction false} StillEnds(vol: Vol, t: Table, u: Table, c: nat, have: nat)
    requires vol.spc > 0 && |t| == |u| && EndedFrom(vol, t, c, have)
    requires forall x :: x in DirClusters(vol, t, c, have) ==> u[x] == t[x]
    ensures EndedFrom(vol, u, c, have)
    decreases SECTOR_LIMIT + vol.spc - have
  {
    DirClustersStep(vol, t, c, have);
    if !(t[c] < 2 || IsEoc(vol.kind, t[c])) {
      forall x | x in DirClusters(vol, t, t[c], have + vol.spc)
        ensures u[x] == t[x]
      {
        assert x in DirClusters(vol, t, c, have);
      }
      StillEnds(vol, t, u, t[c], have + vol.spc);
    }
  }

  method WriteRootFile(disk: Image, lba: nat, name: Name, data: Bytes) returns (bad: Option<Error>, ghost w: Write)
    requires var v := ReadVol(disk.img, lba); v.Ok? ==> Writable(disk.img, v.value, name, |data|)
    modifies disk
    ensures var v := ReadVol(old(disk.img), lba);
            if v.Err? then bad == Some(v.error) && disk.img == old(disk.img)
            else WriteAnswer(old(disk.img), disk.img, v.value, name, data, bad, w)
  {
    var v := ReadVol(disk.img, lba);
    if v.Err? {
      return Some(v.error), Nothing;
    }
    bad, w := WriteInVolume(disk, v.value, name, data);
  }

  method WriteInVolume(disk: Image, vol: Vol, name: Name, data: Bytes) returns (bad: Option<Error>, ghost w: Write)
    requires Writable(disk.img, vol, name, |data|)
    modifies disk
    ensures WriteAnswer(old(disk.img), disk.img, vol, name, data, bad, w)
  {
    var secs := ListDir(disk, vol, RootDir(vol));
    var f := FindEntryLoc(disk, secs, name, false);
    if f.Some? {
      // Files of equal size need equally many clusters.
      if f.value.size == |data| {
        if f.value.cluster < 2 {
          return Some(BelowFirst), Nothing;
        }
        disk.WriteAt(ClusterOff(vol, f.value.cluster), data);
        return None, Over;
      }
      return Some(OtherSize), Nothing;
    }
    if ClustersNeeded(|data|, ClusterBytes(vol)) == 0 {
      return Some(Empty), Nothing;
    }
    ghost var was := disk.img;
    var start;
    ghost var fb;
    start, fb := Store(disk, vol, data);
    if start.None? {
      return Some(NoSpace), Nothing;
    }
    ghost var mid := disk.img;
    StoredReady(was, mid, vol, data, start.value, fb);
    ghost var entry;
    bad, entry := InstallDirEntry(disk, vol, name, start.value, |data|);
    w := Fresh(start.value, fb, mid, entry);
  }

  /** Marks the first free run that is long enough, in both tables, and writes the bytes there. */
  method Store(disk: Image, vol: Vol, data: Bytes) returns (r: Option<nat>, ghost fb: Bytes)
    requires Holds(disk.img, vol) && data != []
    modifies disk
    ensures r.None? ==> NoRun(old(Fat(disk.img, vol)), ClustersNeeded(|data|, ClusterBytes(vol))) && disk.img == old(disk.img)
    ensures r.Some? ==> Stored(old(disk.img), disk.img, vol, data, r.value, fb)
  {
    ghost var was := disk.img;
    var fat := LoadFat(disk, vol);
    var n := ClustersNeeded(|data|, ClusterBytes(vol));
    r := FindRun(vol.kind, fat, n);
    fb := [];
    if r.None? {
      return;
    }
    MarkRun(vol.kind, fat, r.value, n);
    fb := fat[..];
    NeededCovers(|data|, ClusterBytes(vol));
    InRunHolds(was, vol, fb, r.value, n, data);
    WriteFats(disk, vol, fat);
    disk.WriteAt(ClusterOff(vol, r.value), data);
  }
}
