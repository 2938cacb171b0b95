/**
 What writing a root file (xtask/src/fat32_write.rs) means: the file reads back, every other name and
 chain is as before, a second call changes nothing, and a full root directory gains at most one cluster.
 */
module FatWritten {
  import opened Base
  import opened DirSlots
  import opened FatTable
  import opened Disk
  import opened FatVolume
  import opened FatFiles
  import opened FatFrame
  import opened FatSlots
  import opened FatInstall
  import opened FatListing
  import opened FatWrite

  // ---------------------------------------------------------------- the entry

  /** The volume is the one read, its root directory lists every sector once. */
  ghost predicate Ready(img: Bytes, vol: Vol, lba: nat, secs: seq<nat>) {
    && ReadVol(img, lba) == Ok(vol) && RootHeld(img, vol) && secs == SectorsIn(img, vol, RootDir(vol)) && Distinct(secs)
    && SectorsInside(img, secs)
  }

  lemma RootSectors(img: Bytes, vol: Vol, secs: seq<nat>)
    requires RootHeld(img, vol) && secs == SectorsIn(img, vol, RootDir(vol))
    ensures Aligned(secs) && forall j :: 0 <= j < |secs| ==> FatEnd(vol) <= secs[j]
    ensures forall j :: 0 <= j < |secs| ==> Home(vol, ClustersOf(vol, Fat(img, vol), RootDir(vol)), secs[j])
  {
    forall j | 0 <= j < |secs|
      ensures Home(vol, ClustersOf(vol, Fat(img, vol), RootDir(vol)), secs[j])
      ensures secs[j] % SECTOR == 0 && FatEnd(vol) <= secs[j]
    {
      SectorsHome(vol, Fat(img, vol), RootDir(vol), j);
      HomeInside(img, vol, ClustersOf(vol, Fat(img, vol), RootDir(vol)), secs[j]);
    }
  }

  /** A write after the tables that is no directory's keeps the volume, the tables and the listing's sectors. */
  lemma PastTables(x: Bytes, now: Bytes, vol: Vol, lba: nat, secs: seq<nat>, o: nat, bytes: Bytes)
    requires Ready(x, vol, lba, secs) && FatEnd(vol) <= o && o + |bytes| <= |x| && now == Splice(x, o, bytes)
    ensures Ready(now, vol, lba, secs) && Fat(now, vol) == Fat(x, vol) && (Mirrored(now, vol) <==> Mirrored(x, vol))
  {
    HoldsTable(x, vol);
    SpliceApart(x, o, bytes, vol.base, vol.base + SECTOR);
    ReadVolKept(x, now, lba);
    SpliceApart(x, o, bytes, FatOff(vol), FatEnd(vol));
    TablesKept(x, now, vol);
  }

  /** A new entry changes its slot and no cluster of another chain. */
  lemma EntryAdded(x: Bytes, now: Bytes, vol: Vol, lba: nat, secs: seq<nat>, k: nat, name: Name, cluster: nat, size: nat)
    requires Ready(x, vol, lba, secs) && k < SLOTS * |secs| && SlotOff(secs, k) + SLOT <= |x|
    requires now == PutNew(x, SlotOff(secs, k), name, cluster, size)
    ensures Ready(now, vol, lba, secs) && Fat(now, vol) == Fat(x, vol) && (Mirrored(now, vol) <==> Mirrored(x, vol))
    ensures RootSlots(now, vol) == RootSlots(x, vol)[k := NewSlot(RootSlots(x, vol)[k], name, cluster, size)]
  {
    var s := SlotOff(secs, k);
    RootSectors(x, vol, secs);
    PastTables(x, now, vol, lba, secs, s, NewSlot(x[s..s + SLOT], name, cluster, size));
    NewInListing(x, secs, k, s, name, cluster, size, RootSlots(x, vol));
  }

  lemma EntryElsewhere(x: Bytes, now: Bytes, vol: Vol, secs: seq<nat>, k: nat, name: Name, cluster: nat, size: nat, c: Cluster)
    requires RootHeld(x, vol) && secs == SectorsIn(x, vol, RootDir(vol)) && k < SLOTS * |secs| && SlotOff(secs, k) + SLOT <= |x|
    requires now == PutNew(x, SlotOff(secs, k), name, cluster, size)
    requires c < Entries(vol) && c !in ClustersOf(vol, Fat(x, vol), RootDir(vol))
    ensures ClusterOff(vol, c) <= ClusterOff(vol, c + 1) <= |x|
    ensures now[ClusterOff(vol, c)..ClusterOff(vol, c + 1)] == x[ClusterOff(vol, c)..ClusterOff(vol, c + 1)]
  {
    var s := SlotOff(secs, k);
    RunRoom(x, vol, c, 1, 0);
    SlotElsewhere(x, vol, secs, k, c);
    SpliceApart(x, s, NewSlot(x[s..s + SLOT], name, cluster, size), ClusterOff(vol, c), ClusterOff(vol, c + 1));
  }

  // ---------------------------------------------------------------- a new file, step by step

  /** A write that made a new file of `data`. */
  ghost predicate MadeNow(was: Bytes, now: Bytes, vol: Vol, lba: nat, name: Name, data: Bytes, w: Write) {
    && ReadVol(was, lba) == Ok(vol) && 0 < |data| < 0x1_0000_0000 && w.Fresh?
    && Writable(was, vol, name, |data|) && WriteAnswer(was, now, vol, name, data, None, w)
  }

  ghost predicate MadeFolded(was: Bytes, now: Bytes, vol: Vol, lba: nat, name: Name, data: Bytes, w: Write, k: nat)
    decreases k
  {
    if k == 0 then MadeNow(was, now, vol, lba, name, data, w) else MadeFolded(was, now, vol, lba, name, data, w, k - 1)
  }

  lemma {:induction false} MadeIs(was: Bytes, now: Bytes, vol: Vol, lba: nat, name: Name, data: Bytes, w: Write, k: nat)
    ensures MadeFolded(was, now, vol, lba, name, data, w, k) == MadeNow(was, now, vol, lba, name, data, w)
    decreases k
  {
    if k > 0 {
      MadeIs(was, now, vol, lba, name, data, w, k - 1);
    }
  }

  /** The same, folded. */
  ghost predicate Made(was: Bytes, now: Bytes, vol: Vol, lba: nat, name: Name, data: Bytes, w: Write) {
    w.Fresh? && vol.spc > 0 && MadeFolded(was, now, vol, lba, name, data, w, FOLDS)
  }

  /** A call of write_root_file that succeeds for a name not there yet makes a new file. */
  lemma AnswerIsMade(was: Bytes, now: Bytes, vol: Vol, lba: nat, name: Name, data: Bytes, w: Write)
    requires ReadVol(was, lba) == Ok(vol) && Writable(was, vol, name, |data|) && |data| < 0x1_0000_0000
    requires WriteAnswer(was, now, vol, name, data, None, w) && RootEntry(was, vol, name) == None
    ensures Made(was, now, vol, lba, name, data, w)
  {
    MadeIs(was, now, vol, lba, name, data, w, FOLDS);
  }

  /** The bytes are stored before the entry is made. */
  lemma MadeStored(was: Bytes, now: Bytes, vol: Vol, lba: nat, name: Name, data: Bytes, w: Write)
    requires Made(was, now, vol, lba, name, data, w)
    ensures ReadVol(was, lba) == Ok(vol) && 0 < |data| < 0x1_0000_0000 && RootReady(was, vol)
    ensures RootEntry(was, vol, name) == None && Stored(was, w.mid, vol, data, w.start, w.fb)
  {
    MadeIs(was, now, vol, lba, name, data, w, FOLDS);
  }

  lemma MadeInstalled(was: Bytes, now: Bytes, vol: Vol, lba: nat, name: Name, data: Bytes, w: Write)
    requires Made(was, now, vol, lba, name, data, w)
    ensures RootReady(w.mid, vol) && Installed(w.mid, now, vol, name, w.start, |data|, None, w.entry)
    ensures w.entry.Into? || w.entry.Onto?
  {
    MadeIs(was, now, vol, lba, name, data, w, FOLDS);
  }

  /** The image the entry is written to, and the slot it takes. */
  ghost predicate Entered(x: Bytes, now: Bytes, vol: Vol, lba: nat, secs: seq<nat>, k: nat, name: Name, cluster: nat, size: nat) {
    && Ready(x, vol, lba, secs) && FirstFree(RootSlots(x, vol), Some(k)) && SlotOff(secs, k) + SLOT <= |x|
    && now == PutNew(x, SlotOff(secs, k), name, cluster, size)
  }

  function BaseOf(w: Write): Bytes
    requires w.Fresh?
  {
    if w.entry.Onto? then w.entry.mid else w.mid
  }

  /** The stored bytes leave the root directory as it was. */
  lemma StoredKeeps(was: Bytes, now: Bytes, vol: Vol, lba: nat, name: Name, data: Bytes, w: Write, secs: seq<nat>)
    requires Made(was, now, vol, lba, name, data, w) && RootHeld(was, vol) && secs == SectorsIn(was, vol, RootDir(vol))
    ensures Ready(w.mid, vol, lba, secs) && RootReady(w.mid, vol) && Mirrored(w.mid, vol)
    ensures RootSlots(w.mid, vol) == RootSlots(was, vol)
    ensures w.start + ClustersNeeded(|data|, ClusterBytes(vol)) <= Entries(vol)
    ensures Fat(w.mid, vol) == Marked(vol.kind, Fat(was, vol), w.start, ClustersNeeded(|data|, ClusterBytes(vol)))
  {
    MadeStored(was, now, vol, lba, name, data, w);
    var n := ClustersNeeded(|data|, ClusterBytes(vol));
    StoredReady(was, w.mid, vol, data, w.start, w.fb);
    LaidBoot(was, w.mid, vol, w.fb, w.start, n, data, lba);
    RootDistinct(w.mid, vol);
  }

  /** Where the entry goes: the first free slot, among the old ones or those added. */
  lemma EntryGoes(was: Bytes, now: Bytes, vol: Vol, lba: nat, name: Name, data: Bytes, w: Write)
    returns (secs: seq<nat>, k: nat)
    requires Made(was, now, vol, lba, name, data, w) && RootHeld(was, vol)
    ensures Entered(BaseOf(w), now, vol, lba, secs, k, name, w.start, |data|)
    ensures RootSlots(BaseOf(w), vol) == RootSlots(was, vol)
         || (FirstFree(RootSlots(was, vol), None) && RootSlots(BaseOf(w), vol) == RootSlots(was, vol) + Blank(SLOTS * vol.spc))
  {
    MadeInstalled(was, now, vol, lba, name, data, w);
    secs := SectorsIn(was, vol, RootDir(vol));
    StoredKeeps(was, now, vol, lba, name, data, w, secs);
    if w.entry.Into? {
      k := w.entry.slot;
    } else {
      k := SLOTS * |secs|;
      RootAdded(w.mid, w.entry.mid, vol, lba, w.entry.added, w.entry.gb, secs);
      SecondOffset(secs, ClusterOff(vol, w.entry.added), vol.spc, k);
      BlanksAdded(RootSlots(was, vol), SLOTS * vol.spc, name, false);
      secs := secs + SectorsFrom(ClusterOff(vol, w.entry.added), vol.spc);
    }
  }

  /** The root directory with one more cluster at the end. */
  lemma RootAdded(mid: Bytes, now: Bytes, vol: Vol, lba: nat, added: Cluster, gb: Bytes, secs: seq<nat>)
    requires Ready(mid, vol, lba, secs) && RootEnds(vol, Fat(mid, vol)) && vol.kind.Fat32? && RootGrown(mid, now, vol, added, gb)
    ensures Ready(now, vol, lba, secs + SectorsFrom(ClusterOff(vol, added), vol.spc))
    ensures RootSlots(now, vol) == RootSlots(mid, vol) + Blank(SLOTS * vol.spc)
    ensures Mirrored(now, vol) && Fat(now, vol) == View(vol.kind, gb)
    ensures ClustersOf(vol, Fat(now, vol), RootDir(vol)) == ClustersOf(vol, Fat(mid, vol), RootDir(vol)) + [added]
  {
    var z := Fill(ClusterBytes(vol), 0);
    GrownListing(mid, now, vol, added, gb);
    GrownSlots(mid, now, vol, added, gb, secs, SectorsFrom(ClusterOff(vol, added), vol.spc));
    InRunHolds(mid, vol, gb, added, 1, z);
    LaidBoot(mid, now, vol, gb, added, 1, z, lba);
    AddedDistinct(vol, Fat(mid, vol), RootCluster(vol), added);
  }

  lemma AddedDistinct(vol: Vol, t: Table, c: nat, added: Cluster)
    requires vol.spc > 0 && Numbered(vol.kind, t) && EndedFrom(vol, t, c, 0) && DirOk(vol, t, At(c)) && RunFree(t, added, 1)
    ensures Distinct(SectorsOf(vol, DirClusters(vol, t, c, 0) + [added]))
  {
    var cs := DirClusters(vol, t, c, 0);
    EndedDistinct(vol, t, c);
    forall i | 0 <= i < |cs|
      ensures cs[i] != added
    {
      DirAvoidsFree(vol, t, At(c), added, 1, cs[i]);
    }
    SectorsDistinct(vol, cs + [added]);
  }

  /** A search finds in the image the entry is written to what it found before the call. */
  lemma SameFinds(was: Bytes, now: Bytes, vol: Vol, lba: nat, name: Name, data: Bytes, w: Write, x: seq<Slot>, other: Name,
                  wantDir: bool)
    requires Made(was, now, vol, lba, name, data, w) && RootHeld(was, vol)
    requires x == RootSlots(was, vol)
             || (FirstFree(RootSlots(was, vol), None) && x == RootSlots(was, vol) + Blank(SLOTS * vol.spc))
    ensures Search(x, 0, other, wantDir) == Search(RootSlots(was, vol), 0, other, wantDir)
    ensures Tidy(RootSlots(was, vol)) ==> Tidy(x)
    ensures Search(x, 0, name, false).None?
  {
    MadeStored(was, now, vol, lba, name, data, w);
    LookupIsSearch(was, SectorsIn(was, vol, RootDir(vol)), name, false);
    if x != RootSlots(was, vol) {
      BlanksAdded(RootSlots(was, vol), SLOTS * vol.spc, other, wantDir);
      BlanksAdded(RootSlots(was, vol), SLOTS * vol.spc, name, false);
    }
  }

  /** The volume, its tables and the root directory after the call. */
  lemma MadeSlots(was: Bytes, now: Bytes, vol: Vol, lba: nat, name: Name, data: Bytes, w: Write)
    returns (secs: seq<nat>, k: nat, x: seq<Slot>)
    requires Made(was, now, vol, lba, name, data, w) && RootHeld(was, vol)
    ensures Ready(now, vol, lba, secs) && FirstFree(x, Some(k))
    ensures RootSlots(now, vol) == x[k := NewSlot(x[k], name, w.start, |data|)]
    ensures x == RootSlots(was, vol)
            || (FirstFree(RootSlots(was, vol), None) && x == RootSlots(was, vol) + Blank(SLOTS * vol.spc))
  {
    secs, k := EntryGoes(was, now, vol, lba, name, data, w);
    x := RootSlots(BaseOf(w), vol);
    EntryAdded(BaseOf(w), now, vol, lba, secs, k, name, w.start, |data|);
  }

  // ---------------------------------------------------------------- clusters

  /** A cluster of no directory, other than one just added to the root directory, is as when the bytes were stored. */
  lemma MidCluster(was: Bytes, now: Bytes, vol: Vol, lba: nat, name: Name, data: Bytes, w: Write, c: Cluster)
    requires Made(was, now, vol, lba, name, data, w) && RootHeld(was, vol)
    requires c < Entries(vol) && c !in ClustersOf(vol, Fat(was, vol), RootDir(vol)) && (w.entry.Onto? ==> c != w.entry.added)
    ensures SameCluster(w.mid, now, vol, c)
  {
    MadeInstalled(was, now, vol, lba, name, data, w);
    var secs, k := EntryGoes(was, now, vol, lba, name, data, w);
    BaseTable(was, now, vol, lba, name, data, w);
    EntryElsewhere(BaseOf(w), now, vol, secs, k, name, w.start, |data|, c);
    if w.entry.Onto? {
      AddedElsewhere(w.mid, w.entry.mid, vol, w.entry.added, w.entry.gb, c);
    }
  }

  lemma AddedElsewhere(mid: Bytes, now: Bytes, vol: Vol, added: Cluster, gb: Bytes, c: Cluster)
    requires RootReady(mid, vol) && vol.kind.Fat32? && RootGrown(mid, now, vol, added, gb) && c < Entries(vol) && c != added
    ensures SameCluster(mid, now, vol, c)
  {
    var z := Fill(ClusterBytes(vol), 0);
    InRunHolds(mid, vol, gb, added, 1, z);
    LaidCluster(mid, now, vol, gb, added, 1, z, c);
  }

  /** The root directory's clusters when the entry is written. */
  lemma BaseTable(was: Bytes, now: Bytes, vol: Vol, lba: nat, name: Name, data: Bytes, w: Write)
    requires Made(was, now, vol, lba, name, data, w) && RootHeld(was, vol)
    ensures Holds(BaseOf(w), vol) && Mirrored(BaseOf(w), vol) && RootReady(w.mid, vol)
    ensures ClustersOf(vol, Fat(w.mid, vol), RootDir(vol)) == ClustersOf(vol, Fat(was, vol), RootDir(vol))
    ensures ClustersOf(vol, Fat(BaseOf(w), vol), RootDir(vol))
         == ClustersOf(vol, Fat(was, vol), RootDir(vol)) + if w.entry.Onto? then [w.entry.added] else []
    ensures w.entry.Onto? ==> Fat(BaseOf(w), vol) == View(vol.kind, w.entry.gb)
  {
    MadeStored(was, now, vol, lba, name, data, w);
    MadeInstalled(was, now, vol, lba, name, data, w);
    var before := SectorsIn(was, vol, RootDir(vol));
    StoredKeeps(was, now, vol, lba, name, data, w, before);
    StoredReady(was, w.mid, vol, data, w.start, w.fb);
    if w.entry.Onto? {
      RootAdded(w.mid, w.entry.mid, vol, lba, w.entry.added, w.entry.gb, before);
    }
  }

  /** The table after the call. */
  lemma MadeTable(was: Bytes, now: Bytes, vol: Vol, lba: nat, name: Name, data: Bytes, w: Write, t: Table, m: Table)
    requires Made(was, now, vol, lba, name, data, w) && RootHeld(was, vol)
    requires t == Fat(was, vol) && w.start + ClustersNeeded(|data|, ClusterBytes(vol)) <= |t|
    requires m == Marked(vol.kind, t, w.start, ClustersNeeded(|data|, ClusterBytes(vol)))
    ensures Holds(now, vol) && Mirrored(now, vol)
    ensures w.entry.Into? ==> Fat(now, vol) == m
    ensures w.entry.Onto? ==>
              RootEnds(vol, m) && vol.kind.Fat32? && FirstRun(m, w.entry.added, 1)
              && Fat(now, vol) == Appended(vol.kind, m, Last(vol, m, RootCluster(vol), 0), w.entry.added)
    ensures w.entry.Into? || w.entry.Onto?
    ensures ClustersOf(vol, m, RootDir(vol)) == ClustersOf(vol, t, RootDir(vol))
    ensures ClustersOf(vol, Fat(now, vol), RootDir(vol))
         == ClustersOf(vol, t, RootDir(vol)) + if w.entry.Onto? then [w.entry.added] else []
  {
    MadeStored(was, now, vol, lba, name, data, w);
    MadeInstalled(was, now, vol, lba, name, data, w);
    var secs, k := EntryGoes(was, now, vol, lba, name, data, w);
    StoredKeeps(was, now, vol, lba, name, data, w, SectorsIn(was, vol, RootDir(vol)));
    BaseTable(was, now, vol, lba, name, data, w);
    EntryAdded(BaseOf(w), now, vol, lba, secs, k, name, w.start, |data|);
  }

  // ---------------------------------------------------------------- main results

  /** No slot before the entry is free. */
  predicate Behind(slots: seq<Slot>, f: Option<Found>) {
    f.Some? ==> forall i :: 0 <= i < f.value.slot && i < |slots| ==> !FreeSlot(slots[i])
  }

  /** An entry that was found as `a` is found as `b` after one of that name was put among the slots: both are the same
      except exactly when the new name begins with the end mark and a slot before the entry was free. */
  predicate KeptOrHidden(slots: seq<Slot>, name: Name, a: Option<Found>, b: Option<Found>) {
    (a == b <==> (name[0] == 0 ==> Behind(slots, a))) && (a == b || b == None)
  }

  /** Every other name is found as before, with one exception: a new name that begins with the end mark hides the entries
      that come after a free slot. */
  lemma OthersListed(was: Bytes, now: Bytes, vol: Vol, lba: nat, name: Name, data: Bytes, w: Write, other: Name, wantDir: bool)
    requires Made(was, now, vol, lba, name, data, w) && RootHeld(was, vol) && Tidy(RootSlots(was, vol))
    requires other != name || wantDir
    ensures RootHeld(now, vol)
    ensures KeptOrHidden(RootSlots(was, vol), name, EntryIn(was, vol, RootDir(vol), other, wantDir),
                         EntryIn(now, vol, RootDir(vol), other, wantDir))
  {
    var secs, k, x := MadeSlots(was, now, vol, lba, name, data, w);
    var before, e := RootSlots(was, vol), NewSlot(x[k], name, w.start, |data|);
    SameFinds(was, now, vol, lba, name, data, w, x, other, wantDir);
    EntryIsFound(was, vol, other, wantDir);
    EntryIsFound(now, vol, other, wantDir);
    Hidden(before, x, k, e, name, w.start, |data|, other, wantDir, SLOTS * vol.spc);
  }

  /** What a search of the slots finds. */
  function FoundIn(slots: seq<Slot>, name: Name, wantDir: bool): Option<Found> {
    var at := Search(slots, 0, name, wantDir);
    if at.None? then None else Some(EntryOf(slots, at.value))
  }

  lemma EntryIsFound(img: Bytes, vol: Vol, name: Name, wantDir: bool)
    requires RootHeld(img, vol)
    ensures EntryIn(img, vol, RootDir(vol), name, wantDir) == FoundIn(RootSlots(img, vol), name, wantDir)
  {
    LookupIsSearch(img, SectorsIn(img, vol, RootDir(vol)), name, wantDir);
  }

  /** The same for the slots. */
  lemma Hidden(before: seq<Slot>, x: seq<Slot>, k: nat, e: Slot, name: Name, cluster: nat, size: nat, other: Name, wantDir: bool, n: nat)
    requires FirstFree(x, Some(k)) && Tidy(x) && e == NewSlot(x[k], name, cluster, size) && (other != name || wantDir)
    requires Search(x, 0, other, wantDir) == Search(before, 0, other, wantDir)
    requires x == before || (FirstFree(before, None) && x == before + Blank(n))
    ensures KeptOrHidden(before, name, FoundIn(before, other, wantDir), FoundIn(x[k := e], other, wantDir))
  {
    OthersFound(x, k, e, name, cluster, size, other, wantDir);
    var at := Search(before, 0, other, wantDir);
    if at.Some? {
      assert !FreeSlot(before[at.value]) && x[at.value] == before[at.value] && !FreeSlot(x[at.value]);
    }
  }

  /** The bytes are in the run, whatever the installation did. */
  lemma DataStays(was: Bytes, now: Bytes, vol: Vol, lba: nat, name: Name, data: Bytes, w: Write)
    requires Made(was, now, vol, lba, name, data, w) && RootHeld(was, vol)
    ensures w.start >= 2 && ClusterOff(vol, w.start) + |data| <= |now|
    ensures now[ClusterOff(vol, w.start)..ClusterOff(vol, w.start) + |data|] == data
  {
    var s, n := w.start, ClustersNeeded(|data|, ClusterBytes(vol));
    MadeStored(was, now, vol, lba, name, data, w);
    MadeHolds(was, now, vol, lba, name, data, w);
    NeededCovers(|data|, ClusterBytes(vol));
    RunBytes(vol, s, n);
    RunStays(was, now, vol, lba, name, data, w);
    var o := ClusterOff(vol, s);
    DataIn(PutFats(was, vol, w.fb), w.mid, now, o, data, ClusterOff(vol, s + n));
  }

  /** What was spliced in is still there wherever a longer range is kept. */
  lemma DataIn(base: Bytes, mid: Bytes, now: Bytes, o: nat, data: Bytes, e: nat)
    requires o + |data| <= e <= |base| == |now| && mid == Splice(base, o, data) && mid[o..e] == now[o..e]
    ensures now[o..o + |data|] == data
  {
    SameSlice(mid, now, o, e, o, o + |data|);
    SpliceInside(base, o, data, o, o + |data|);
    assert data[0..|data|] == data;
  }

  /** The clusters of the run, taken together. */
  lemma RunStays(was: Bytes, now: Bytes, vol: Vol, lba: nat, name: Name, data: Bytes, w: Write)
    requires Made(was, now, vol, lba, name, data, w) && RootHeld(was, vol) && w.start >= 2
    ensures var n := ClustersNeeded(|data|, ClusterBytes(vol));
            && ClusterOff(vol, w.start) <= ClusterOff(vol, w.start + n) <= |w.mid| == |now|
            && now[ClusterOff(vol, w.start)..ClusterOff(vol, w.start + n)]
               == w.mid[ClusterOff(vol, w.start)..ClusterOff(vol, w.start + n)]
  {
    var s, n := w.start, ClustersNeeded(|data|, ClusterBytes(vol));
    RunFits(was, now, vol, lba, name, data, w);
    forall c | s <= c < s + n
      ensures SameCluster(w.mid, now, vol, c)
    {
      RunOutside(was, now, vol, lba, name, data, w, c);
      MidCluster(was, now, vol, lba, name, data, w, c);
    }
    SameRun(w.mid, now, vol, s, n);
  }

  lemma RunFits(was: Bytes, now: Bytes, vol: Vol, lba: nat, name: Name, data: Bytes, w: Write)
    requires Made(was, now, vol, lba, name, data, w) && RootHeld(was, vol)
    ensures w.start + ClustersNeeded(|data|, ClusterBytes(vol)) <= Entries(vol)
    ensures Holds(w.mid, vol) && Holds(now, vol) && |w.mid| == |now|
  {
    MadeStored(was, now, vol, lba, name, data, w);
    MadeHolds(was, now, vol, lba, name, data, w);
    BaseTable(was, now, vol, lba, name, data, w);
  }

  lemma MadeHolds(was: Bytes, now: Bytes, vol: Vol, lba: nat, name: Name, data: Bytes, w: Write)
    requires Made(was, now, vol, lba, name, data, w) && RootHeld(was, vol)
    ensures Holds(now, vol) && |now| == |was| == |w.mid|
  {
    MadeStored(was, now, vol, lba, name, data, w);
    MadeInstalled(was, now, vol, lba, name, data, w);
  }

  /** The new run is no directory's and was not given to the root directory. */
  lemma RunOutside(was: Bytes, now: Bytes, vol: Vol, lba: nat, name: Name, data: Bytes, w: Write, c: Cluster)
    requires Made(was, now, vol, lba, name, data, w) && RootHeld(was, vol)
    requires w.start <= c < w.start + ClustersNeeded(|data|, ClusterBytes(vol))
    ensures c < Entries(vol) && c !in ClustersOf(vol, Fat(was, vol), RootDir(vol)) && (w.entry.Onto? ==> c != w.entry.added)
  {
    var t, n := Fat(was, vol), ClustersNeeded(|data|, ClusterBytes(vol));
    MadeStored(was, now, vol, lba, name, data, w);
    if c in ClustersOf(vol, t, RootDir(vol)) {
      DirAvoidsFree(vol, t, RootDir(vol), w.start, n, c);
    }
    if w.entry.Onto? {
      AddedFree(was, now, vol, lba, name, data, w);
    }
  }

  /** The cluster added to the root directory was still free when the bytes had been stored. */
  lemma AddedFree(was: Bytes, now: Bytes, vol: Vol, lba: nat, name: Name, data: Bytes, w: Write)
    requires Made(was, now, vol, lba, name, data, w) && RootHeld(was, vol) && w.entry.Onto?
    ensures !(w.start <= w.entry.added < w.start + ClustersNeeded(|data|, ClusterBytes(vol)))
  {
    var n := ClustersNeeded(|data|, ClusterBytes(vol));
    MadeInstalled(was, now, vol, lba, name, data, w);
    StoredKeeps(was, now, vol, lba, name, data, w, SectorsIn(was, vol, RootDir(vol)));
    assert Fat(w.mid, vol)[w.entry.added] == 0;
  }

  /** A new file reads back exactly when its name does not begin with one of the two marks of a free slot. */
  lemma WriteReads(was: Bytes, now: Bytes, vol: Vol, lba: nat, name: Name, data: Bytes, w: Write)
    requires Made(was, now, vol, lba, name, data, w) && RootHeld(was, vol) && Tidy(RootSlots(was, vol))
    ensures ReadVol(now, lba) == Ok(vol) && RootHeld(now, vol)
    ensures RootFile(now, vol, name) == Ok(data) <==> name[0] != 0 && name[0] != 0xe5
  {
    var k := NewEntry(was, now, vol, lba, name, data, w);
    if name[0] != 0 && name[0] != 0xe5 {
      MadeStored(was, now, vol, lba, name, data, w);
      DataStays(was, now, vol, lba, name, data, w);
      ReadsAt(now, vol, name, Found(k, w.start, |data|), data);
    }
  }

  lemma NewEntry(was: Bytes, now: Bytes, vol: Vol, lba: nat, name: Name, data: Bytes, w: Write) returns (k: nat)
    requires Made(was, now, vol, lba, name, data, w) && RootHeld(was, vol) && Tidy(RootSlots(was, vol))
    ensures ReadVol(now, lba) == Ok(vol) && RootHeld(now, vol)
    ensures RootEntry(now, vol, name) == if name[0] != 0 && name[0] != 0xe5 then Some(Found(k, w.start, |data|)) else None
  {
    MadeStored(was, now, vol, lba, name, data, w);
    var secs, x;
    secs, k, x := MadeSlots(was, now, vol, lba, name, data, w);
    SameFinds(was, now, vol, lba, name, data, w, x, name, false);
    EntryPlaced(x, k, NewSlot(x[k], name, w.start, |data|), name, w.start, |data|);
    LookupIsSearch(now, secs, name, false);
    NewSlotFields(x[k], name, w.start, |data|);
  }

  /** Clusters in use that are not the root directory's keep their link and every byte; the new run was free. */
  lemma OtherClusterKept(was: Bytes, now: Bytes, vol: Vol, lba: nat, name: Name, data: Bytes, w: Write, c: Cluster)
    requires Made(was, now, vol, lba, name, data, w) && RootHeld(was, vol) && c < Entries(vol)
    requires Fat(was, vol)[c] != 0 && c !in ClustersOf(vol, Fat(was, vol), RootDir(vol))
    ensures Holds(now, vol) && Fat(now, vol)[c] == Fat(was, vol)[c] && SameCluster(was, now, vol, c)
  {
    MadeStored(was, now, vol, lba, name, data, w);
    var t, n := Fat(was, vol), ClustersNeeded(|data|, ClusterBytes(vol));
    var m := Marked(vol.kind, t, w.start, n);
    MadeTable(was, now, vol, lba, name, data, w, t, m);
    if w.entry.Onto? {
      LastListed(vol, m, RootCluster(vol), 0);
    }
    LaidCluster(was, w.mid, vol, w.fb, w.start, n, data, c);
    MidCluster(was, now, vol, lba, name, data, w, c);
  }

  /** So every other chain is followed and read as before. */
  lemma OtherChainKept(was: Bytes, now: Bytes, vol: Vol, lba: nat, name: Name, data: Bytes, w: Write, c: nat, fuel: nat, cs: seq<nat>)
    requires Made(was, now, vol, lba, name, data, w) && RootHeld(was, vol) && cs == Walk(vol.kind, Fat(was, vol), c, fuel)
    requires forall i :: 0 <= i < |cs| ==>
               Fat(was, vol)[cs[i]] != 0 && cs[i] !in ClustersOf(vol, Fat(was, vol), RootDir(vol))
    ensures Holds(now, vol) && Walk(vol.kind, Fat(now, vol), c, fuel) == cs && Gather(now, vol, cs) == Gather(was, vol, cs)
  {
    MadeHolds(was, now, vol, lba, name, data, w);
    forall i | 0 <= i < |cs|
      ensures Fat(now, vol)[cs[i]] == Fat(was, vol)[cs[i]] && SameCluster(was, now, vol, cs[i])
    {
      OtherClusterKept(was, now, vol, lba, name, data, w, cs[i]);
    }
    SameWalk(vol.kind, Fat(was, vol), Fat(now, vol), c, fuel, cs);
    SameGather(was, now, vol, cs);
  }

  /** The root directory gains at most one cluster, at the end of its chain, and only when no slot was free. */
  lemma RootGrowsByOne(was: Bytes, now: Bytes, vol: Vol, lba: nat, name: Name, data: Bytes, w: Write)
    requires Made(was, now, vol, lba, name, data, w) && RootHeld(was, vol)
    ensures RootHeld(now, vol) && Mirrored(now, vol)
    ensures var a, b := ClustersOf(vol, Fat(was, vol), RootDir(vol)), ClustersOf(vol, Fat(now, vol), RootDir(vol));
            b == a || (FirstFree(RootSlots(was, vol), None) && exists c :: b == a + [c])
  {
    MadeStored(was, now, vol, lba, name, data, w);
    MadeInstalled(was, now, vol, lba, name, data, w);
    var secs, k, x := MadeSlots(was, now, vol, lba, name, data, w);
    var t := Fat(was, vol);
    MadeTable(was, now, vol, lba, name, data, w, t, Marked(vol.kind, t, w.start, ClustersNeeded(|data|, ClusterBytes(vol))));
    StoredReady(was, w.mid, vol, data, w.start, w.fb);
    if w.entry.Onto? {
      assert ClustersOf(vol, Fat(now, vol), RootDir(vol)) == ClustersOf(vol, t, RootDir(vol)) + [w.entry.added];
    }
  }

  /** Writing the same file again changes nothing. */
  lemma WriteAgain(was: Bytes, now: Bytes, again: Bytes, vol: Vol, lba: nat, name: Name, data: Bytes, w: Write,
                   bad: Option<Error>, w': Write)
    requires Made(was, now, vol, lba, name, data, w) && RootHeld(was, vol) && Tidy(RootSlots(was, vol))
    requires name[0] != 0 && name[0] != 0xe5
    requires Writable(now, vol, name, |data|) && WriteAnswer(now, again, vol, name, data, bad, w')
    ensures bad == None && again == now
  {
    WriteReads(was, now, vol, lba, name, data, w);
    var f := RootEntry(now, vol, name).value;
    SpliceSame(now, ClusterOff(vol, f.cluster), |data|);
  }

  /** Writing over a file of the same size, whose clusters are not the root directory's, changes no entry and no link. */
  lemma OverKeeps(was: Bytes, now: Bytes, vol: Vol, lba: nat, data: Bytes, f: Found, secs: seq<nat>)
    requires Ready(was, vol, lba, secs) && f.size == |data| > 0 && OwnRun(was, vol, f)
    requires ClusterOff(vol, f.cluster) + |data| <= |was| && now == Splice(was, ClusterOff(vol, f.cluster), data)
    ensures Ready(now, vol, lba, secs) && Fat(now, vol) == Fat(was, vol) && RootSlots(now, vol) == RootSlots(was, vol)
  {
    var o := ClusterOff(vol, f.cluster);
    RunRoom(was, vol, f.cluster, 0, 0);
    PastTables(was, now, vol, lba, secs, o, data);
    forall j | 0 <= j < |secs|
      ensures now[secs[j]..secs[j] + SECTOR] == was[secs[j]..secs[j] + SECTOR]
    {
      RunElsewhere(was, vol, f, secs, j);
      SpliceApart(was, o, data, secs[j], secs[j] + SECTOR);
    }
    SameSlots(was, now, secs);
  }

  /** And it reads back. */
  lemma OverReads(was: Bytes, now: Bytes, vol: Vol, lba: nat, name: Name, data: Bytes, f: Found, secs: seq<nat>)
    requires Ready(was, vol, lba, secs) && RootEntry(was, vol, name) == Some(f) && f.size == |data| > 0
    requires OwnRun(was, vol, f) && ClusterOff(vol, f.cluster) + |data| <= |was|
    requires now == Splice(was, ClusterOff(vol, f.cluster), data)
    ensures Ready(now, vol, lba, secs)
    ensures RootHeld(now, vol) && RootFile(now, vol, name) == Ok(data)
  {
    OverKeeps(was, now, vol, lba, data, f, secs);
    SameEntry(was, now, vol, lba, secs, name);
    SpliceAll(was, ClusterOff(vol, f.cluster), data);
    ReadsAt(now, vol, name, f, data);
  }

  lemma SpliceAll(img: Bytes, off: nat, data: Bytes)
    requires off + |data| <= |img|
    ensures Splice(img, off, data)[off..off + |data|] == data
  {
    SpliceInside(img, off, data, off, off + |data|);
    assert data[0..|data|] == data;
  }

  lemma SameEntry(was: Bytes, now: Bytes, vol: Vol, lba: nat, secs: seq<nat>, name: Name)
    requires Ready(was, vol, lba, secs) && Ready(now, vol, lba, secs) && RootSlots(now, vol) == RootSlots(was, vol)
    ensures RootEntry(now, vol, name) == RootEntry(was, vol, name)
  {
    LookupIsSearch(was, secs, name, false);
    LookupIsSearch(now, secs, name, false);
  }

  /** The clusters the size of a file asks for are in the table and not the root directory's. */
  ghost predicate OwnRun(img: Bytes, vol: Vol, f: Found)
    requires RootHeld(img, vol)
  {
    var n := ClustersNeeded(f.size, ClusterBytes(vol));
    && f.cluster >= 2 && f.cluster + n <= Entries(vol)
    && forall x :: x in ClustersOf(vol, Fat(img, vol), RootDir(vol)) ==> !(f.cluster <= x < f.cluster + n)
  }

  lemma RunElsewhere(img: Bytes, vol: Vol, f: Found, secs: seq<nat>, j: nat)
    requires RootHeld(img, vol) && OwnRun(img, vol, f) && secs == SectorsIn(img, vol, RootDir(vol)) && j < |secs|
    ensures secs[j] + SECTOR <= ClusterOff(vol, f.cluster) || ClusterOff(vol, f.cluster) + f.size <= secs[j]
  {
    var cs := ClustersOf(vol, Fat(img, vol), RootDir(vol));
    RootSectors(img, vol, secs);
    NeededCovers(f.size, ClusterBytes(vol));
    if x :| x in cs && ClusterOff(vol, x) <= secs[j] && secs[j] + SECTOR <= ClusterOff(vol, x + 1) {
      RunsInOrder(vol, f.cluster, ClustersNeeded(f.size, ClusterBytes(vol)), f.size, x);
    } else {
      RunRoom(img, vol, f.cluster, 0, 0);
    }
  }

  lemma OverElsewhere(was: Bytes, now: Bytes, vol: Vol, data: Bytes, f: Found, c: Cluster)
    requires RootHeld(was, vol) && OwnRun(was, vol, f) && f.size == |data| && c < Entries(vol)
    requires ClusterOff(vol, f.cluster) + |data| <= |was| && now == Splice(was, ClusterOff(vol, f.cluster), data)
    requires !(f.cluster <= c < f.cluster + ClustersNeeded(f.size, ClusterBytes(vol)))
    ensures SameCluster(was, now, vol, c)
  {
    NeededCovers(f.size, ClusterBytes(vol));
    RunRoom(was, vol, c, 1, 0);
    RunsInOrder(vol, f.cluster, ClustersNeeded(f.size, ClusterBytes(vol)), f.size, c);
    SpliceApart(was, ClusterOff(vol, f.cluster), data, ClusterOff(vol, c), ClusterOff(vol, c + 1));
  }
}
