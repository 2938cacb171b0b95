/**
 grow_root_file of xtask/src/fat32_write.rs: a file of the root directory made longer, in place or
 moved, possibly over itself.
 */
module FatGrow {
  import opened Base
  import opened DirSlots
  import opened FatTable
  import opened FatPlan
  import opened Disk
  import opened FatVolume
  import opened FatFiles
  import opened FatFrame

  function NeedOf(vol: Vol, f: Found, n: nat, newSize: nat): Need
    requires vol.spc > 0
  {
    Need(f.cluster, n, ClustersNeeded(f.size, ClusterBytes(vol)), ClustersNeeded(newSize, ClusterBytes(vol)))
  }

  /** The file is a run of `n` clusters that hold its size, or has neither clusters nor bytes. */
  predicate FileChain(vol: Vol, t: Table, f: Found, n: nat, newSize: nat)
    requires vol.spc > 0
  {
    NeedOk(vol.kind, t, NeedOf(vol, f, n, newSize)) && f.size < newSize
  }

  // ---------------------------------------------------------------- the image after a move

  lemma FileRoom(img: Bytes, vol: Vol, f: Found, n: nat, newSize: nat)
    requires Holds(img, vol) && FileChain(vol, Fat(img, vol), f, n, newSize)
    ensures InRange(img, vol, f) && (f.size > 0 ==> f.cluster >= 2 && FatEnd(vol) <= ClusterOff(vol, f.cluster))
  {
    var need := ClustersNeeded(f.size, ClusterBytes(vol));
    NeededCovers(f.size, ClusterBytes(vol));
    if f.size > 0 {
      RunRoom(img, vol, f.cluster, need, f.size);
    }
  }

  lemma PlanRoom(img: Bytes, vol: Vol, f: Found, n: nat, newSize: nat, p: Plan)
    requires Holds(img, vol) && FileChain(vol, Fat(img, vol), f, n, newSize)
    requires Chosen(vol.kind, Fat(img, vol), NeedOf(vol, f, n, newSize), p) && !p.Refused?
    ensures var s := Start(NeedOf(vol, f, n, newSize), p);
            s >= 2 && FatEnd(vol) <= ClusterOff(vol, s) && ClusterOff(vol, s) + newSize <= |img|
  {
    var d := NeedOf(vol, f, n, newSize);
    PlanKeeps(vol.kind, Fat(img, vol), d, p);
    NeededCovers(newSize, ClusterBytes(vol));
    RunRoom(img, vol, Start(d, p), d.newN, newSize);
  }

  /** New tables, and bytes at the start of a cluster. */
  ghost function Laid(img: Bytes, vol: Vol, fb: Bytes, start: nat, bytes: Bytes): (r: Bytes)
    requires Holds(img, vol) && |fb| == FatBytes(vol) && start >= 2 && ClusterOff(vol, start) + |bytes| <= |img|
    ensures |r| == |img|
  {
    Splice(PutFats(img, vol, fb), ClusterOff(vol, start), bytes)
  }

  lemma TablesApart(img: Bytes, vol: Vol, fb: Bytes, lo: nat, hi: nat)
    requires Holds(img, vol) && |fb| == FatBytes(vol) && lo <= hi <= |img| && (hi <= FatOff(vol) || FatEnd(vol) <= lo)
    ensures PutFats(img, vol, fb)[lo..hi] == img[lo..hi]
  {
    CopiesEnd(img, vol, fb);
    SpliceApart(img, FatOff(vol), Copies(vol, fb), lo, hi);
  }

  lemma LaidInPlace(img: Bytes, vol: Vol, fb: Bytes, f: Found)
    requires Holds(img, vol) && |fb| == FatBytes(vol) && f.cluster >= 2 && InRange(img, vol, f)
    requires f.size > 0 && FatEnd(vol) <= ClusterOff(vol, f.cluster)
    ensures PutFats(img, vol, fb) == Laid(img, vol, fb, f.cluster, Content(img, vol, f))
  {
    var o := ClusterOff(vol, f.cluster);
    TablesApart(img, vol, fb, o, o + f.size);
    SpliceSame(PutFats(img, vol, fb), o, f.size);
  }

  /** Rewriting the tables after the bytes. */
  lemma LaidTwice(img: Bytes, vol: Vol, fb: Bytes, gb: Bytes, start: nat, bytes: Bytes)
    requires Holds(img, vol) && |fb| == FatBytes(vol) == |gb| && start >= 2 && ClusterOff(vol, start) + |bytes| <= |img|
    requires FatEnd(vol) <= ClusterOff(vol, start)
    ensures Holds(Laid(img, vol, fb, start, bytes), vol)
    ensures PutFats(Laid(img, vol, fb, start, bytes), vol, gb) == Laid(img, vol, gb, start, bytes)
  {
    CopiesEnd(img, vol, fb);
    CopiesEnd(img, vol, gb);
    SpliceSwap(PutFats(img, vol, fb), FatOff(vol), Copies(vol, gb), ClusterOff(vol, start), bytes);
    SpliceOver(img, FatOff(vol), Copies(vol, fb), Copies(vol, gb));
  }

  lemma LaidNothing(img: Bytes, vol: Vol, fb: Bytes, start: nat)
    requires Holds(img, vol) && |fb| == FatBytes(vol) && start >= 2 && ClusterOff(vol, start) <= |img|
    ensures Laid(img, vol, fb, start, []) == PutFats(img, vol, fb)
  {
    NoSplice(PutFats(img, vol, fb), ClusterOff(vol, start));
  }

  // ---------------------------------------------------------------- the three ways to grow

  /** The table in memory is the one on disk. */
  ghost predicate Loaded(img: Bytes, vol: Vol, fat: array<byte>)
    reads fat
  {
    Holds(img, vol) && fat.Length == FatBytes(vol) && View(vol.kind, fat[..]) == Fat(img, vol)
  }

  /** Copies the old bytes to the run at `start`. */
  method CopyOld(disk: Image, vol: Vol, f: Found, start: nat, ghost was: Bytes, ghost fb: Bytes)
    requires Holds(was, vol) && |fb| == FatBytes(vol) && disk.img == PutFats(was, vol, fb)
    requires InRange(was, vol, f) && (f.size > 0 ==> FatEnd(vol) <= ClusterOff(vol, f.cluster))
    requires start >= 2 && FatEnd(vol) <= ClusterOff(vol, start) && ClusterOff(vol, start) + f.size <= |was|
    modifies disk
    ensures disk.img == Laid(was, vol, fb, start, Content(was, vol, f))
  {
    if f.cluster >= 2 && f.size > 0 {
      TablesApart(was, vol, fb, ClusterOff(vol, f.cluster), ClusterOff(vol, f.cluster) + f.size);
      disk.CopyBytes(ClusterOff(vol, f.cluster), ClusterOff(vol, start), f.size, Min(IO_CHUNK, f.size));
    } else {
      LaidNothing(was, vol, fb, start);
    }
  }

  method GrowInPlace(disk: Image, vol: Vol, fat: array<byte>, f: Found, newSize: nat, ghost n: nat)
    requires Loaded(disk.img, vol, fat) && FileChain(vol, Fat(disk.img, vol), f, n, newSize)
    requires CanExtend(Fat(disk.img, vol), NeedOf(vol, f, n, newSize))
    modifies disk, fat
    ensures Placed(old(disk.img), disk.img, vol, f, n, newSize, InPlace, fat[..])
  {
    ghost var d, was := NeedOf(vol, f, n, newSize), disk.img;
    FileRoom(was, vol, f, n, newSize);
    PlanRoom(was, vol, f, n, newSize, InPlace);
    ExtendChain(vol.kind, fat, f.cluster, ClustersNeeded(f.size, ClusterBytes(vol)), ClustersNeeded(newSize, ClusterBytes(vol)));
    WriteFats(disk, vol, fat);
    LaidInPlace(was, vol, fat[..], f);
  }

  method GrowMoved(disk: Image, vol: Vol, fat: array<byte>, f: Found, newSize: nat, start: nat, ghost n: nat)
    requires Loaded(disk.img, vol, fat) && FileChain(vol, Fat(disk.img, vol), f, n, newSize)
    requires Chosen(vol.kind, Fat(disk.img, vol), NeedOf(vol, f, n, newSize), Moved(start))
    modifies disk, fat
    ensures Placed(old(disk.img), disk.img, vol, f, n, newSize, Moved(start), fat[..])
  {
    ghost var d, was, t := NeedOf(vol, f, n, newSize), disk.img, Fat(disk.img, vol);
    FileRoom(was, vol, f, n, newSize);
    PlanRoom(was, vol, f, n, newSize, Moved(start));
    MovedKeeps(vol.kind, t, d, start, Marked(vol.kind, t, start, d.newN));
    MarkRun(vol.kind, fat, start, ClustersNeeded(newSize, ClusterBytes(vol)));
    WriteFats(disk, vol, fat);
    ghost var fb := fat[..];
    CopyOld(disk, vol, f, start, was, fb);
    if f.cluster >= 2 {
      FreedRun(vol.kind, View(vol.kind, fat[..]), f.cluster, n, FREE_LIMIT);
      FreeChain(vol.kind, fat, f.cluster);
      LaidTwice(was, vol, fb, fat[..], start, Content(was, vol, f));
      WriteFats(disk, vol, fat);
    }
  }

  method GrowSlid(disk: Image, vol: Vol, fat: array<byte>, f: Found, newSize: nat, start: nat, ghost was: Bytes, ghost n: nat)
    requires Holds(was, vol) && FileChain(vol, Fat(was, vol), f, n, newSize) && disk.img == was
    requires fat.Length == FatBytes(vol) && View(vol.kind, fat[..]) == Freed(Fat(was, vol), NeedOf(vol, f, n, newSize))
    requires Chosen(vol.kind, Fat(was, vol), NeedOf(vol, f, n, newSize), Slid(start))
    modifies disk, fat
    ensures Placed(was, disk.img, vol, f, n, newSize, Slid(start), fat[..])
  {
    FileRoom(was, vol, f, n, newSize);
    PlanRoom(was, vol, f, n, newSize, Slid(start));
    MarkRun(vol.kind, fat, start, ClustersNeeded(newSize, ClusterBytes(vol)));
    WriteFats(disk, vol, fat);
    CopyOld(disk, vol, f, start, was, fat[..]);
  }

  /** The new tables and the old bytes at the chosen place; `fb` is the table. */
  ghost predicate Placed(was: Bytes, now: Bytes, vol: Vol, f: Found, n: nat, newSize: nat, p: Plan, fb: Bytes)
    requires Holds(was, vol) && FileChain(vol, Fat(was, vol), f, n, newSize)
  {
    var t, d := Fat(was, vol), NeedOf(vol, f, n, newSize);
    && Chosen(vol.kind, t, d, p) && !p.Refused?
    && |fb| == FatBytes(vol) && View(vol.kind, fb) == After(vol.kind, t, d, p)
    && InRange(was, vol, f) && Start(d, p) >= 2 && ClusterOff(vol, Start(d, p)) + f.size <= |was|
    && now == Laid(was, vol, fb, Start(d, p), Content(was, vol, f))
  }

  /** Chooses the place and moves the file there; without a place nothing is written. */
  method Place(disk: Image, vol: Vol, fat: array<byte>, f: Found, newSize: nat, ghost n: nat)
    returns (r: Option<nat>, ghost p: Plan)
    requires Loaded(disk.img, vol, fat) && FileChain(vol, Fat(disk.img, vol), f, n, newSize)
    modifies disk, fat
    ensures Chosen(vol.kind, old(Fat(disk.img, vol)), NeedOf(vol, f, n, newSize), p)
    ensures p.Refused? ==> r.None? && disk.img == old(disk.img)
    ensures !p.Refused? ==> r == Some(Start(NeedOf(vol, f, n, newSize), p))
    ensures !p.Refused? ==> Placed(old(disk.img), disk.img, vol, f, n, newSize, p, fat[..])
  {
    ghost var was, t, d := disk.img, Fat(disk.img, vol), NeedOf(vol, f, n, newSize);
    var oldN, newN := ClustersNeeded(f.size, ClusterBytes(vol)), ClustersNeeded(newSize, ClusterBytes(vol));
    var inPlace := f.cluster >= 2 && oldN > 0;
    if inPlace && newN > oldN {
      inPlace := RunIsFree(vol.kind, fat, f.cluster + oldN, newN - oldN);
    }
    if inPlace {
      GrowInPlace(disk, vol, fat, f, newSize, n);
      return Some(f.cluster), InPlace;
    }
    var start := FindRun(vol.kind, fat, newN);
    if start.Some? {
      GrowMoved(disk, vol, fat, f, newSize, start.value, n);
      return start, Moved(start.value);
    }
    if f.cluster >= 2 {
      FreedRun(vol.kind, t, f.cluster, n, FREE_LIMIT);
      FreeChain(vol.kind, fat, f.cluster);
    }
    start := FindRun(vol.kind, fat, newN);
    if start.None? {
      return None, Refused;
    }
    GrowSlid(disk, vol, fat, f, newSize, start.value, was, n);
    return start, Slid(start.value);
  }

  // ---------------------------------------------------------------- growing a file of the root directory

  /** The directory clusters belong to no part of the file. */
  predicate DirApart(clusters: seq<Cluster>, f: Found, n: nat) {
    forall x :: x in clusters ==> !(f.cluster <= x < f.cluster + n)
  }

  /** A root directory that can be listed, whose entry `name`, if it is to grow, owns a run of `n` clusters. */
  ghost predicate Growable(img: Bytes, vol: Vol, name: Name, newSize: nat, n: nat) {
    && RootHeld(img, vol)
    && var f := RootEntry(img, vol, name);
       f.Some? && f.value.size < newSize ==>
         FileChain(vol, Fat(img, vol), f.value, n, newSize)
         && DirApart(ClustersOf(vol, Fat(img, vol), RootDir(vol)), f.value, n)
  }

  /** What a call that finds the volume does: `p` is the place chosen, `fb` the new table. */
  ghost predicate GrowAnswer(was: Bytes, now: Bytes, vol: Vol, name: Name, newSize: nat, n: nat, r: Result<nat, Error>,
                             p: Plan, fb: Bytes)
    requires Growable(was, vol, name, newSize, n)
  {
    match RootEntry(was, vol, name)
    case None => r == Err(NotFound) && now == was
    case Some(f) =>
      if f.size >= newSize then r == Ok(f.size) && now == was
      else
        && Chosen(vol.kind, Fat(was, vol), NeedOf(vol, f, n, newSize), p)
        && if p.Refused? then r == Err(NoSpace) && now == was
           else r == Ok(newSize) && Grown(was, now, vol, f, n, newSize, p, fb)
  }

  function Longer(was: Bytes, vol: Vol, f: Found, newSize: nat): (b: Bytes)
    requires InRange(was, vol, f) && f.size < newSize
    ensures |b| == newSize
  {
    Content(was, vol, f) + Fill(newSize - f.size, 0)
  }

  /** The image of a file that has grown. */
  ghost predicate Grown(was: Bytes, now: Bytes, vol: Vol, f: Found, n: nat, newSize: nat, p: Plan, fb: Bytes)
    requires RootHeld(was, vol) && FileChain(vol, Fat(was, vol), f, n, newSize)
  {
    var t, d, secs := Fat(was, vol), NeedOf(vol, f, n, newSize), SectorsIn(was, vol, RootDir(vol));
    && Chosen(vol.kind, t, d, p) && !p.Refused? && f.slot < SLOTS * |secs| && SlotOff(secs, f.slot) + SLOT <= |was|
    && |fb| == FatBytes(vol) && View(vol.kind, fb) == After(vol.kind, t, d, p)
    && InRange(was, vol, f) && Start(d, p) >= 2 && ClusterOff(vol, Start(d, p)) + newSize <= |was|
    && now == PutFields(Laid(was, vol, fb, Start(d, p), Longer(was, vol, f, newSize)), SlotOff(secs, f.slot), Start(d, p), newSize)
  }

  /** `n` is the length of the chain the file has. */
  method GrowRootFile(disk: Image, lba: nat, name: Name, newSize: nat, ghost n: nat)
    returns (r: Result<nat, Error>, ghost p: Plan, ghost fb: Bytes)
    requires var v := ReadVol(disk.img, lba); v.Ok? ==> Growable(disk.img, v.value, name, newSize, n)
    modifies disk
    ensures var v := ReadVol(old(disk.img), lba);
            if v.Err? then r == Err(v.error) && disk.img == old(disk.img)
            else GrowAnswer(old(disk.img), disk.img, v.value, name, newSize, n, r, p, fb)
  {
    p, fb := Refused, [];
    var v := ReadVol(disk.img, lba);
    if v.Err? {
      r := Err(v.error);
      return;
    }
    r, p, fb := GrowInVolume(disk, v.value, name, newSize, n);
  }

  method GrowInVolume(disk: Image, vol: Vol, name: Name, newSize: nat, ghost n: nat)
    returns (r: Result<nat, Error>, ghost p: Plan, ghost fb: Bytes)
    requires Growable(disk.img, vol, name, newSize, n)
    modifies disk
    ensures GrowAnswer(old(disk.img), disk.img, vol, name, newSize, n, r, p, fb)
  {
    p, fb := Refused, [];
    var fat := LoadFat(disk, vol);
    var secs := DirSectorOffsets(vol, fat, RootDir(vol));
    var f := FindEntryLoc(disk, secs, name, false);
    if f.None? {
      r := Err(NotFound);
      return;
    }
    if f.value.size >= newSize {
      r := Ok(f.value.size);
      return;
    }
    r, p, fb := GrowFound(disk, vol, fat, f.value, newSize, secs, n);
  }

  method GrowFound(disk: Image, vol: Vol, fat: array<byte>, f: Found, newSize: nat, secs: seq<nat>, ghost n: nat)
    returns (r: Result<nat, Error>, ghost p: Plan, ghost fb: Bytes)
    requires RootHeld(disk.img, vol) && FileChain(vol, Fat(disk.img, vol), f, n, newSize) && Loaded(disk.img, vol, fat)
    requires secs == SectorsIn(disk.img, vol, RootDir(vol)) && f.slot < SLOTS * |secs|
    modifies disk, fat
    ensures Chosen(vol.kind, old(Fat(disk.img, vol)), NeedOf(vol, f, n, newSize), p)
    ensures p.Refused? ==> r == Err(NoSpace) && disk.img == old(disk.img)
    ensures !p.Refused? ==> r == Ok(newSize) && Grown(old(disk.img), disk.img, vol, f, n, newSize, p, fb)
  {
    // The new size is above 0, so it needs clusters.
    ghost var was := disk.img;
    SlotInside(was, secs, f.slot);
    var start;
    start, p := Place(disk, vol, fat, f, newSize, n);
    fb := fat[..];
    if start.None? {
      r := Err(NoSpace);
      return;
    }
    Record(disk, vol, f, newSize, secs, start.value, was, n, p, fb);
    r := Ok(newSize);
  }

  method Record(disk: Image, vol: Vol, f: Found, newSize: nat, secs: seq<nat>, start: nat, ghost was: Bytes, ghost n: nat,
                ghost p: Plan, ghost fb: Bytes)
    requires RootHeld(was, vol) && FileChain(vol, Fat(was, vol), f, n, newSize)
    requires secs == SectorsIn(was, vol, RootDir(vol)) && f.slot < SLOTS * |secs| && SlotOff(secs, f.slot) + SLOT <= |was|
    requires Placed(was, disk.img, vol, f, n, newSize, p, fb) && start == Start(NeedOf(vol, f, n, newSize), p)
    modifies disk
    ensures Grown(was, disk.img, vol, f, n, newSize, p, fb)
  {
    ghost var placed := disk.img;
    Filled(was, placed, vol, f, newSize, start, n, p, fb);
    SameSectors(was, placed, secs);
    var off, pad := ClusterOff(vol, start) + f.size, newSize - f.size;
    PadAndRecord(disk, off, pad, secs, f.slot, start, newSize);
    Finished(was, placed, disk.img, vol, f, newSize, secs, start, n, p, fb, off, pad);
  }

  lemma SameSectors(was: Bytes, now: Bytes, secs: seq<nat>)
    requires |now| == |was| && SectorsInside(was, secs)
    ensures SectorsInside(now, secs)
  {
  }

  /** Zeros up to the new size, then the directory entry. */
  method PadAndRecord(disk: Image, off: nat, pad: nat, secs: seq<nat>, slot: nat, start: nat, newSize: nat)
    requires off + pad <= |disk.img| && SectorsInside(disk.img, secs) && slot < SLOTS * |secs|
    modifies disk
    ensures SlotOff(secs, slot) + SLOT <= |disk.img|
    ensures disk.img == PutFields(Splice(old(disk.img), off, Fill(pad, 0)), SlotOff(secs, slot), start, newSize)
  {
    SlotInside(disk.img, secs, slot);
    disk.WriteFill(off, pad, 0);
    WriteDirentClusterSize(disk, secs[slot / SLOTS], slot % SLOTS * SLOT, start, newSize);
  }

  lemma Filled(was: Bytes, placed: Bytes, vol: Vol, f: Found, newSize: nat, start: nat, n: nat, p: Plan, fb: Bytes)
    requires Holds(was, vol) && FileChain(vol, Fat(was, vol), f, n, newSize)
    requires Placed(was, placed, vol, f, n, newSize, p, fb) && start == Start(NeedOf(vol, f, n, newSize), p)
    ensures start >= 2 && ClusterOff(vol, start) + newSize <= |was| && InRange(was, vol, f)
    ensures |placed| == |was|
    ensures Splice(placed, ClusterOff(vol, start) + f.size, Fill(newSize - f.size, 0))
         == Laid(was, vol, fb, start, Longer(was, vol, f, newSize))
  {
    PlanRoom(was, vol, f, n, newSize, p);
    SpliceUp(PutFats(was, vol, fb), ClusterOff(vol, start), Content(was, vol, f), Fill(newSize - f.size, 0));
  }

  lemma Finished(was: Bytes, placed: Bytes, now: Bytes, vol: Vol, f: Found, newSize: nat, secs: seq<nat>, start: nat,
                 n: nat, p: Plan, fb: Bytes, off: nat, pad: nat)
    requires RootHeld(was, vol) && FileChain(vol, Fat(was, vol), f, n, newSize)
    requires secs == SectorsIn(was, vol, RootDir(vol)) && f.slot < SLOTS * |secs| && SlotOff(secs, f.slot) + SLOT <= |was|
    requires Placed(was, placed, vol, f, n, newSize, p, fb) && start == Start(NeedOf(vol, f, n, newSize), p)
    requires start >= 2 && ClusterOff(vol, start) + newSize <= |was| && |placed| == |was|
    requires off == ClusterOff(vol, start) + f.size && pad == newSize - f.size
    requires InRange(was, vol, f) && Splice(placed, off, Fill(pad, 0)) == Laid(was, vol, fb, start, Longer(was, vol, f, newSize))
    requires now == PutFields(Splice(placed, off, Fill(pad, 0)), SlotOff(secs, f.slot), start, newSize)
    ensures Grown(was, now, vol, f, n, newSize, p, fb)
  {
  }
}
