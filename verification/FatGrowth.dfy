/**
 What growing a root file (xtask/src/fat32_write.rs) means for the whole volume: the file reads as its
 old bytes and zeros, and every other file, chain and directory entry stays what it was.
 */
module FatGrowth {
  import opened Base
  import opened DirSlots
  import opened FatTable
  import opened FatPlan
  import opened Disk
  import opened FatVolume
  import opened FatFiles
  import opened FatFrame
  import opened FatGrow

  /** One call of grow_root_file: the entry found and its place, the length of its chain, the size asked for, and the
      choice made: the plan, its first cluster and the table. */
  datatype Growth = Growth(name: Name, f: Found, slot: nat, n: nat, newSize: nat, p: Plan, start: Cluster, fb: Bytes)

  function Needs(vol: Vol, g: Growth): Need
    requires vol.spc > 0
  {
    NeedOf(vol, g.f, g.n, g.newSize)
  }

  /** The call found the file too small and succeeded, taking `was` to `now`. */
  ghost predicate DoneNow(was: Bytes, now: Bytes, vol: Vol, g: Growth) {
    && Growable(was, vol, g.name, g.newSize, g.n) && RootEntry(was, vol, g.name) == Some(g.f)
    && g.f.size < g.newSize < 0x1_0000_0000
    && Grown(was, now, vol, g.f, g.n, g.newSize, g.p, g.fb)
    && g.start == Start(Needs(vol, g), g.p) && g.slot == SlotOff(SectorsIn(was, vol, RootDir(vol)), g.f.slot)
  }

  ghost predicate DoneFolded(was: Bytes, now: Bytes, vol: Vol, g: Growth, k: nat)
    decreases k
  {
    if k == 0 then DoneNow(was, now, vol, g) else DoneFolded(was, now, vol, g, k - 1)
  }

  /** The same, folded. */
  ghost predicate Done(was: Bytes, now: Bytes, vol: Vol, g: Growth) {
    DoneFolded(was, now, vol, g, FOLDS)
  }

  lemma {:induction false} DoneIs(was: Bytes, now: Bytes, vol: Vol, g: Growth, k: nat)
    ensures DoneFolded(was, now, vol, g, k) == DoneNow(was, now, vol, g)
    decreases k
  {
    if k > 0 {
      DoneIs(was, now, vol, g, k - 1);
    }
  }

  /** A call of grow_root_file that answers with the new size, of a file that was smaller, is such a growth. */
  lemma AnswerIsDone(was: Bytes, now: Bytes, vol: Vol, name: Name, f: Found, newSize: nat, n: nat, r: Result<nat, Error>,
                     p: Plan, fb: Bytes, g: Growth)
    requires Growable(was, vol, name, newSize, n) && GrowAnswer(was, now, vol, name, newSize, n, r, p, fb)
    requires RootEntry(was, vol, name) == Some(f) && f.size < newSize < 0x1_0000_0000 && r.Ok?
    requires g.start == Start(NeedOf(vol, f, n, newSize), p)
    requires g == Growth(name, f, SlotOff(SectorsIn(was, vol, RootDir(vol)), f.slot), n, newSize, p, g.start, fb)
    ensures Done(was, now, vol, g)
  {
    DoneIs(was, now, vol, g, FOLDS);
  }

  /** What a successful growth leaves: the old image with other tables, other bytes and two fields. */
  lemma DoneImage(was: Bytes, now: Bytes, vol: Vol, g: Growth)
    requires Done(was, now, vol, g)
    ensures RootHeld(was, vol) && RootEntry(was, vol, g.name) == Some(g.f) && g.f.size < g.newSize < 0x1_0000_0000
    ensures |g.fb| == FatBytes(vol) && InRange(was, vol, g.f) && |now| == |was|
    ensures ClusterOff(vol, g.start) + g.newSize <= |was| && g.slot + SLOT <= |was|
    ensures g.f.slot < SLOTS * |SectorsIn(was, vol, RootDir(vol))|
    ensures g.slot == SlotOff(SectorsIn(was, vol, RootDir(vol)), g.f.slot)
    ensures now == PutFields(Laid(was, vol, g.fb, g.start, Longer(was, vol, g.f, g.newSize)), g.slot, g.start, g.newSize)
  {
    DoneIs(was, now, vol, g, FOLDS);
  }

  lemma DoneTable(was: Bytes, now: Bytes, vol: Vol, g: Growth, t: Table, u: Table, d: Need)
    requires Done(was, now, vol, g) && RootHeld(was, vol) && t == Fat(was, vol) && u == View(vol.kind, g.fb) && d == Needs(vol, g)
    ensures NeedOk(vol.kind, t, d) && Chosen(vol.kind, t, d, g.p) && !g.p.Refused? && g.start == Start(d, g.p)
    ensures u == After(vol.kind, t, d, g.p)
    ensures IsRun(vol.kind, u, g.start, Length(d, g.p)) && Apart(t, u, d, g.start)
  {
    DoneIs(was, now, vol, g, FOLDS);
    PlanKeeps(vol.kind, t, d, g.p);
  }

  lemma DoneDir(was: Bytes, now: Bytes, vol: Vol, g: Growth)
    requires Done(was, now, vol, g) && RootHeld(was, vol)
    ensures DirApart(ClustersOf(vol, Fat(was, vol), RootDir(vol)), g.f, g.n)
  {
    DoneIs(was, now, vol, g, FOLDS);
  }

  /** A clusters' entry in use outside the file. */
  predicate Foreign(t: Table, g: Growth, c: nat) {
    c < |t| && t[c] != 0 && !(g.f.cluster <= c < g.f.cluster + g.n)
  }

  // ---------------------------------------------------------------- byte ranges

  /** A range that touches neither the tables, nor the new bytes, nor the two fields of the entry. */
  lemma RangeKept(was: Bytes, now: Bytes, vol: Vol, g: Growth, lo: nat, hi: nat)
    requires Done(was, now, vol, g) && Holds(was, vol)
    requires lo <= hi <= |was| && (hi <= FatOff(vol) || FatEnd(vol) <= lo)
    requires hi <= ClusterOff(vol, g.start) || ClusterOff(vol, g.start) + g.newSize <= lo
    requires hi <= g.slot + 20 || g.slot + 32 <= lo
    ensures |now| == |was| && now[lo..hi] == was[lo..hi]
  {
    DoneImage(was, now, vol, g);
    var bytes := Longer(was, vol, g.f, g.newSize);
    TablesApart(was, vol, g.fb, lo, hi);
    SpliceApart(PutFats(was, vol, g.fb), ClusterOff(vol, g.start), bytes, lo, hi);
    FieldsApart(Laid(was, vol, g.fb, g.start, bytes), g.slot, g.start, g.newSize, lo, hi);
  }

  /** The new bytes avoid every cluster in use that is not the file's. */
  lemma ClusterApart(was: Bytes, now: Bytes, vol: Vol, g: Growth, c: Cluster)
    requires Done(was, now, vol, g) && RootHeld(was, vol) && Foreign(Fat(was, vol), g, c)
    ensures ClusterOff(vol, c + 1) <= ClusterOff(vol, g.start) || ClusterOff(vol, g.start) + g.newSize <= ClusterOff(vol, c)
    ensures FatEnd(vol) <= ClusterOff(vol, c) <= ClusterOff(vol, c + 1) <= |was|
  {
    StartOutside(was, now, vol, g, c);
    RunRoom(was, vol, c, 1, 0);
    NeededCovers(g.newSize, ClusterBytes(vol));
    RunsInOrder(vol, g.start, Needs(vol, g).newN, g.newSize, c);
  }

  lemma StartOutside(was: Bytes, now: Bytes, vol: Vol, g: Growth, c: Cluster)
    requires Done(was, now, vol, g) && RootHeld(was, vol) && Foreign(Fat(was, vol), g, c)
    ensures !(g.start <= c < g.start + Needs(vol, g).newN)
  {
    DoneTable(was, now, vol, g, Fat(was, vol), View(vol.kind, g.fb), Needs(vol, g));
  }

  lemma LinkKept(was: Bytes, now: Bytes, vol: Vol, g: Growth, c: Cluster)
    requires Done(was, now, vol, g) && RootHeld(was, vol) && Foreign(Fat(was, vol), g, c)
    ensures c < |View(vol.kind, g.fb)| && View(vol.kind, g.fb)[c] == Fat(was, vol)[c]
  {
    DoneTable(was, now, vol, g, Fat(was, vol), View(vol.kind, g.fb), Needs(vol, g));
  }

  lemma DirClusterForeign(was: Bytes, now: Bytes, vol: Vol, g: Growth, x: Cluster)
    requires Done(was, now, vol, g) && RootHeld(was, vol) && x in ClustersOf(vol, Fat(was, vol), RootDir(vol))
    ensures Foreign(Fat(was, vol), g, x)
  {
    DoneDir(was, now, vol, g);
  }

  /** So do the sectors of the root directory, which lie after the tables. */
  lemma SectorApart(was: Bytes, now: Bytes, vol: Vol, g: Growth, secs: seq<nat>, j: nat)
    requires Done(was, now, vol, g) && RootHeld(was, vol) && secs == SectorsIn(was, vol, RootDir(vol)) && j < |secs|
    ensures secs[j] % SECTOR == 0 && FatEnd(vol) <= secs[j]
    ensures secs[j] + SECTOR <= ClusterOff(vol, g.start) || ClusterOff(vol, g.start) + g.newSize <= secs[j]
  {
    var t, dir := Fat(was, vol), RootDir(vol);
    SectorsHome(vol, t, dir, j);
    HomeInside(was, vol, ClustersOf(vol, t, dir), secs[j]);
    if x :| x in ClustersOf(vol, t, dir) && ClusterOff(vol, x) <= secs[j] && secs[j] + SECTOR <= ClusterOff(vol, x + 1) {
      DirClusterForeign(was, now, vol, g, x);
      ClusterApart(was, now, vol, g, x);
    } else {
      RunBytes(vol, g.start, 0);
    }
  }

  lemma EntryApart(was: Bytes, now: Bytes, vol: Vol, g: Growth)
    requires Done(was, now, vol, g) && RootHeld(was, vol)
    ensures FatEnd(vol) <= g.slot
    ensures g.slot + SLOT <= ClusterOff(vol, g.start) || ClusterOff(vol, g.start) + g.newSize <= g.slot
  {
    DoneImage(was, now, vol, g);
    var secs := SectorsIn(was, vol, RootDir(vol));
    SlotInside(was, secs, g.f.slot);
    SectorApart(was, now, vol, g, secs, g.f.slot / SLOTS);
  }

  // ---------------------------------------------------------------- the volume and its tables

  /** The tables are equal and are the new one. */
  lemma TablesInPlace(was: Bytes, now: Bytes, vol: Vol, g: Growth)
    requires Done(was, now, vol, g) && RootHeld(was, vol)
    ensures Holds(now, vol) && Mirrored(now, vol) && Fat(now, vol) == View(vol.kind, g.fb)
  {
    EntryApart(was, now, vol, g);
    DoneImage(was, now, vol, g);
    var bytes := Longer(was, vol, g.f, g.newSize);
    var put := PutFats(was, vol, g.fb);
    PutFatsRead(was, vol, g.fb);
    HoldsTable(was, vol);
    RunBytes(vol, g.start, 0);
    SpliceApart(put, ClusterOff(vol, g.start), bytes, FatOff(vol), FatEnd(vol));
    FieldsApart(Laid(was, vol, g.fb, g.start, bytes), g.slot, g.start, g.newSize, FatOff(vol), FatEnd(vol));
    TablesKept(put, now, vol);
  }

  /** The volume is read as before, its tables are equal and hold the file's new run, and other entries in use are unchanged. */
  lemma GrownTables(was: Bytes, now: Bytes, vol: Vol, lba: nat, g: Growth)
    requires Done(was, now, vol, g) && RootHeld(was, vol) && ReadVol(was, lba) == Ok(vol)
    ensures ReadVol(now, lba) == Ok(vol) && Holds(now, vol) && Mirrored(now, vol)
    ensures Fat(now, vol) == View(vol.kind, g.fb)
    ensures IsRun(vol.kind, Fat(now, vol), g.start, Length(Needs(vol, g), g.p))
    ensures Apart(Fat(was, vol), Fat(now, vol), Needs(vol, g), g.start)
  {
    EntryApart(was, now, vol, g);
    HoldsTable(was, vol);
    RunBytes(vol, g.start, 0);
    RangeKept(was, now, vol, g, vol.base, vol.base + SECTOR);
    ReadVolKept(was, now, lba);
    TablesInPlace(was, now, vol, g);
    DoneTable(was, now, vol, g, Fat(was, vol), View(vol.kind, g.fb), Needs(vol, g));
  }

  // ---------------------------------------------------------------- the root directory

  /** The listing of the root directory has the same sectors. */
  lemma SameListing(was: Bytes, now: Bytes, vol: Vol, g: Growth)
    requires Done(was, now, vol, g) && RootHeld(was, vol)
    ensures RootHeld(now, vol) && SectorsIn(now, vol, RootDir(vol)) == SectorsIn(was, vol, RootDir(vol))
  {
    var t, dir := Fat(was, vol), RootDir(vol);
    TablesInPlace(was, now, vol, g);
    forall x | x in ClustersOf(vol, t, dir)
      ensures Fat(now, vol)[x] == t[x]
    {
      DirClusterForeign(was, now, vol, g, x);
      LinkKept(was, now, vol, g, x);
    }
    SameDir(vol, t, Fat(now, vol), dir);
  }

  /** A slot keeps its first 12 bytes, and all 32 unless it is the file's. */
  lemma SlotKept(was: Bytes, now: Bytes, vol: Vol, g: Growth, secs: seq<nat>, i: nat, o: nat)
    requires Done(was, now, vol, g) && RootHeld(was, vol) && secs == SectorsIn(was, vol, RootDir(vol))
    requires i < SLOTS * |secs| && o == SlotOff(secs, i)
    ensures |now| == |was| && SameHead(was, now, o)
    ensures o != g.slot ==> now[o..o + SLOT] == was[o..o + SLOT]
  {
    SlotInside(was, secs, i);
    SectorApart(was, now, vol, g, secs, i / SLOTS);
    if o == g.slot {
      RangeKept(was, now, vol, g, o, o + 12);
    } else {
      SlotsDiffer(was, now, vol, g, secs, i);
      RangeKept(was, now, vol, g, o, o + SLOT);
      SameSlice(was, now, o, o + SLOT, o, o + 12);
    }
  }

  lemma RootSlotAligned(was: Bytes, now: Bytes, vol: Vol, g: Growth, secs: seq<nat>, i: nat)
    requires Done(was, now, vol, g) && RootHeld(was, vol) && secs == SectorsIn(was, vol, RootDir(vol)) && i < SLOTS * |secs|
    ensures SlotOff(secs, i) % SLOT == 0
  {
    SectorApart(was, now, vol, g, secs, i / SLOTS);
    SlotModulo(secs[i / SLOTS], i % SLOTS);
  }

  lemma SlotsDiffer(was: Bytes, now: Bytes, vol: Vol, g: Growth, secs: seq<nat>, i: nat)
    requires Done(was, now, vol, g) && RootHeld(was, vol) && secs == SectorsIn(was, vol, RootDir(vol))
    requires i < SLOTS * |secs| && SlotOff(secs, i) != g.slot
    ensures SlotOff(secs, i) + SLOT <= g.slot || g.slot + SLOT <= SlotOff(secs, i)
  {
    DoneImage(was, now, vol, g);
    RootSlotAligned(was, now, vol, g, secs, i);
    RootSlotAligned(was, now, vol, g, secs, g.f.slot);
    SlotsApart(SlotOff(secs, i), g.slot);
  }

  /** Every search of the root directory finds the same slot. */
  lemma SameScan(was: Bytes, now: Bytes, vol: Vol, g: Growth, secs: seq<nat>, name: Name, wantDir: bool)
    requires Done(was, now, vol, g) && RootHeld(was, vol) && secs == SectorsIn(was, vol, RootDir(vol))
    ensures RootHeld(now, vol) && SectorsIn(now, vol, RootDir(vol)) == secs
    ensures Scan(now, secs, 0, name, wantDir) == Scan(was, secs, 0, name, wantDir)
  {
    SameListing(was, now, vol, g);
    forall i | 0 <= i < SLOTS * |secs|
      ensures SameHead(was, now, SlotOff(secs, i))
    {
      SlotKept(was, now, vol, g, secs, i, SlotOff(secs, i));
    }
    ScanKept(was, now, secs, 0, name, wantDir);
  }

  /** The entry names the new place and size. */
  lemma GrownEntry(was: Bytes, now: Bytes, vol: Vol, g: Growth)
    requires Done(was, now, vol, g) && RootHeld(was, vol)
    ensures RootHeld(now, vol) && RootEntry(now, vol, g.name) == Some(Found(g.f.slot, g.start, g.newSize))
  {
    SameScan(was, now, vol, g, SectorsIn(was, vol, RootDir(vol)), g.name, false);
    DoneImage(was, now, vol, g);
    DoneTable(was, now, vol, g, Fat(was, vol), View(vol.kind, g.fb), Needs(vol, g));
    FieldsRead(Laid(was, vol, g.fb, g.start, Longer(was, vol, g.f, g.newSize)), g.slot, g.start, g.newSize);
  }

  /** Other names are found as before. */
  lemma OtherEntryKept(was: Bytes, now: Bytes, vol: Vol, g: Growth, other: Name, wantDir: bool)
    requires Done(was, now, vol, g) && RootHeld(was, vol) && (other != g.name || wantDir)
    ensures RootHeld(now, vol)
    ensures EntryIn(now, vol, RootDir(vol), other, wantDir) == EntryIn(was, vol, RootDir(vol), other, wantDir)
  {
    var secs := SectorsIn(was, vol, RootDir(vol));
    SameScan(was, now, vol, g, secs, other, wantDir);
    var at := Scan(was, secs, 0, other, wantDir);
    if at.Some? {
      var o := SlotOff(secs, at.value);
      OtherSlot(was, now, vol, g, secs, other, wantDir, o);
      SlotKept(was, now, vol, g, secs, at.value, o);
      FieldsSame(was, now, o);
    }
  }

  lemma OtherSlot(was: Bytes, now: Bytes, vol: Vol, g: Growth, secs: seq<nat>, other: Name, wantDir: bool, o: nat)
    requires Done(was, now, vol, g) && RootHeld(was, vol) && secs == SectorsIn(was, vol, RootDir(vol))
    requires (other != g.name || wantDir) && Scan(was, secs, 0, other, wantDir).Some?
    requires o == SlotOff(secs, Scan(was, secs, 0, other, wantDir).value)
    ensures o != g.slot
  {
    DoneImage(was, now, vol, g);
    ScanMatches(was, secs, 0, other, wantDir);
    ScanMatches(was, secs, 0, g.name, false);
  }

  lemma {:induction false} ScanMatches(img: Bytes, secs: seq<nat>, i: nat, name: Name, wantDir: bool)
    requires SectorsInside(img, secs) && i <= SLOTS * |secs| && Scan(img, secs, i, name, wantDir).Some?
    ensures var s := SlotOff(secs, Scan(img, secs, i, name, wantDir).value);
            s + SLOT <= |img| && Matches(img, s, name, wantDir)
    decreases SLOTS * |secs| - i
  {
    SlotInside(img, secs, i);
    if Scan(img, secs, i, name, wantDir) != Some(i) {
      ScanMatches(img, secs, i + 1, name, wantDir);
    }
  }

  lemma FieldsSame(img: Bytes, now: Bytes, o: nat)
    requires |now| == |img| && o + SLOT <= |img| && now[o..o + SLOT] == img[o..o + SLOT]
    ensures FirstCluster(now, o) == FirstCluster(img, o) && FileSize(now, o) == FileSize(img, o)
  {
    SameSlice(img, now, o, o + SLOT, o + 20, o + 22);
    SameSlice(img, now, o, o + SLOT, o + 26, o + 28);
    SameSlice(img, now, o, o + SLOT, o + 28, o + 32);
  }

  // ---------------------------------------------------------------- main results

  /** The new bytes are on disk. */
  lemma NewBytes(was: Bytes, now: Bytes, vol: Vol, g: Growth)
    requires Done(was, now, vol, g) && RootHeld(was, vol)
    ensures ClusterOff(vol, g.start) + g.newSize <= |was| == |now| && InRange(was, vol, g.f) && g.newSize > g.f.size
    ensures now[ClusterOff(vol, g.start)..ClusterOff(vol, g.start) + g.newSize]
         == Content(was, vol, g.f) + Zeros(g.newSize - g.f.size)
  {
    DoneImage(was, now, vol, g);
    var bytes := Longer(was, vol, g.f, g.newSize);
    LongerLaid(was, now, vol, g, bytes);
    FillIsZeros(bytes, g.newSize - g.f.size);
  }

  lemma LongerLaid(was: Bytes, now: Bytes, vol: Vol, g: Growth, bytes: Bytes)
    requires Done(was, now, vol, g) && RootHeld(was, vol) && InRange(was, vol, g.f) && g.newSize > g.f.size
    requires bytes == Longer(was, vol, g.f, g.newSize)
    ensures ClusterOff(vol, g.start) + g.newSize <= |was| == |now|
    ensures now[ClusterOff(vol, g.start)..ClusterOff(vol, g.start) + g.newSize] == bytes
  {
    EntryApart(was, now, vol, g);
    DoneImage(was, now, vol, g);
    BytesLaid(was, vol, g.fb, g.start, bytes, g.slot, g.newSize);
  }

  lemma BytesLaid(img: Bytes, vol: Vol, fb: Bytes, start: Cluster, bytes: Bytes, slot: nat, size: nat)
    requires Holds(img, vol) && |fb| == FatBytes(vol) && ClusterOff(vol, start) + |bytes| <= |img| && slot + SLOT <= |img|
    requires slot + SLOT <= ClusterOff(vol, start) || ClusterOff(vol, start) + |bytes| <= slot
    ensures PutFields(Laid(img, vol, fb, start, bytes), slot, start, size)[ClusterOff(vol, start)..ClusterOff(vol, start) + |bytes|]
         == bytes
  {
    var o := ClusterOff(vol, start);
    SpliceInside(PutFats(img, vol, fb), o, bytes, o, o + |bytes|);
    FieldsApart(Laid(img, vol, fb, start, bytes), slot, start, size, o, o + |bytes|);
    FillIsZeros(bytes, 0);
  }

  lemma FillIsZeros(bytes: Bytes, n: nat)
    ensures bytes[0..|bytes|] == bytes && Fill(n, 0) == Zeros(n)
  {
  }

  /** The grown file reads as its old bytes followed by zeros. */
  lemma GrownReads(was: Bytes, now: Bytes, vol: Vol, g: Growth)
    requires Done(was, now, vol, g) && RootHeld(was, vol)
    ensures RootHeld(now, vol) && InRange(was, vol, g.f) && g.newSize > g.f.size
    ensures RootFile(now, vol, g.name) == Ok(Content(was, vol, g.f) + Zeros(g.newSize - g.f.size))
  {
    GrownEntry(was, now, vol, g);
    NewBytes(was, now, vol, g);
    ReadsAt(now, vol, g.name, Found(g.f.slot, g.start, g.newSize), Content(was, vol, g.f) + Zeros(g.newSize - g.f.size));
  }

  /** Clusters in use that are neither the file's nor the root directory's keep their link and every byte. */
  lemma OtherClusterKept(was: Bytes, now: Bytes, vol: Vol, g: Growth, c: Cluster)
    requires Done(was, now, vol, g) && RootHeld(was, vol) && Foreign(Fat(was, vol), g, c)
    requires c !in ClustersOf(vol, Fat(was, vol), RootDir(vol))
    ensures Holds(now, vol) && Fat(now, vol)[c] == Fat(was, vol)[c] && SameCluster(was, now, vol, c)
  {
    TablesInPlace(was, now, vol, g);
    LinkKept(was, now, vol, g, c);
    ClusterApart(was, now, vol, g, c);
    DoneImage(was, now, vol, g);
    SlotElsewhere(was, vol, SectorsIn(was, vol, RootDir(vol)), g.f.slot, c);
    RangeKept(was, now, vol, g, ClusterOff(vol, c), ClusterOff(vol, c + 1));
  }

  /** A chain of other clusters, contiguous or not, in any directory, is followed and read as before. */
  lemma OtherChainKept(was: Bytes, now: Bytes, vol: Vol, g: Growth, c: nat, fuel: nat, cs: seq<nat>)
    requires Done(was, now, vol, g) && RootHeld(was, vol) && cs == Walk(vol.kind, Fat(was, vol), c, fuel)
    requires forall i :: 0 <= i < |cs| ==>
               Foreign(Fat(was, vol), g, cs[i]) && cs[i] !in ClustersOf(vol, Fat(was, vol), RootDir(vol))
    ensures Holds(now, vol) && Walk(vol.kind, Fat(now, vol), c, fuel) == cs
    ensures Gather(now, vol, cs) == Gather(was, vol, cs)
  {
    TablesInPlace(was, now, vol, g);
    DoneImage(was, now, vol, g);
    forall i | 0 <= i < |cs|
      ensures Fat(now, vol)[cs[i]] == Fat(was, vol)[cs[i]] && SameCluster(was, now, vol, cs[i])
    {
      OtherClusterKept(was, now, vol, g, cs[i]);
    }
    SameWalk(vol.kind, Fat(was, vol), Fat(now, vol), c, fuel, cs);
    SameGather(was, now, vol, cs);
  }
}
