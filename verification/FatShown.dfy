/**
 What it means that an image holds directories and files (FatTree), and how the writes of
 xtask/src/fat32_write.rs move from one such picture to the next.
 */
module FatShown {
  import opened Base
  import opened Words
  import opened DirSlots
  import opened FatTable
  import opened Disk
  import opened FatVolume
  import opened FatFiles
  import opened FatFrame
  import opened FatSlots
  import opened FatGrow
  import opened FatListing
  import opened FatWrite
  import FatTree
  import LongNameDir

  /** The number that stands for the fixed root area; clusters are numbered from 2. */
  const FIXED: nat := 1

  function DirAt(c: nat): Dir {
    if c == FIXED then FixedRoot else At(c)
  }

  function RootNumber(vol: Vol): nat
    requires Geometry(vol)
  {
    if vol.kind.Fat16? then FIXED else RootCluster(vol)
  }

  /** The directory lists each of its sectors once, and these are its slots. */
  ghost predicate DirShown(img: Bytes, vol: Vol, c: nat, slots: seq<Slot>) {
    && DirHeld(img, vol, DirAt(c)) && Distinct(SectorsIn(img, vol, DirAt(c)))
    && slots == Slots(img, SectorsIn(img, vol, DirAt(c)))
  }

  function ChainOf(vol: Vol, t: Table, c: nat, size: nat): seq<nat>
    requires vol.spc > 0
  {
    Walk(vol.kind, t, c, ClustersNeeded(size, ClusterBytes(vol)))
  }

  /** The bytes are what following the chain from `c` gathers; its clusters are in use. */
  ghost predicate FileShown(img: Bytes, vol: Vol, c: nat, data: Bytes) {
    && Holds(img, vol) && data != []
    && var cs := ChainOf(vol, Fat(img, vol), c, |data|);
       && |cs| == ClustersNeeded(|data|, ClusterBytes(vol))
       && (forall i :: 0 <= i < |cs| ==> Fat(img, vol)[cs[i]] != 0)
       && |data| <= |Gather(img, vol, cs)| && data == Gather(img, vol, cs)[..|data|]
  }

  /** No cluster of the one is a cluster of the directory. */
  predicate Elsewhere(vol: Vol, t: Table, cs: seq<nat>, d: nat)
    requires vol.spc > 0
  {
    forall i :: 0 <= i < |cs| ==> cs[i] !in ClustersOf(vol, t, DirAt(d))
  }

  /** The image holds the directories and files, and no directory shares a cluster with another or with a file. */
  ghost predicate Shows(img: Bytes, vol: Vol, fs: FatTree.Fs) {
    && Holds(img, vol)
    && (forall c :: c in fs.dirs ==> DirShown(img, vol, c, fs.dirs[c]))
    && (forall c :: c in fs.files ==> FileShown(img, vol, c, fs.files[c]))
    && (forall c, d :: c in fs.dirs && d in fs.dirs && c != d ==>
          Elsewhere(vol, Fat(img, vol), ClustersOf(vol, Fat(img, vol), DirAt(c)), d))
    && (forall c, d :: c in fs.files && d in fs.dirs ==>
          Elsewhere(vol, Fat(img, vol), ChainOf(vol, Fat(img, vol), c, |fs.files[c]|), d))
  }

  /** Fewer directories and files are shown as well. */
  lemma ShowsFewer(img: Bytes, vol: Vol, fs: FatTree.Fs, less: FatTree.Fs)
    requires Shows(img, vol, fs)
    requires forall c :: c in less.dirs ==> c in fs.dirs && less.dirs[c] == fs.dirs[c]
    requires forall c :: c in less.files ==> c in fs.files && less.files[c] == fs.files[c]
    ensures Shows(img, vol, less)
  {
  }

  // ---------------------------------------------------------------- free clusters marked and written

  lemma DirStays(was: Bytes, now: Bytes, vol: Vol, fb: Bytes, s: nat, n: nat, bytes: Bytes, c: nat, slots: seq<Slot>)
    requires DirShown(was, vol, c, slots) && InRun(was, vol, fb, s, n, bytes) && now == Laid(was, vol, fb, s, bytes)
    requires RunFree(Fat(was, vol), s, n) && View(vol.kind, fb) == Marked(vol.kind, Fat(was, vol), s, n)
    ensures DirShown(now, vol, c, slots) && SectorsIn(now, vol, DirAt(c)) == SectorsIn(was, vol, DirAt(c))
    ensures ClustersOf(vol, Fat(now, vol), DirAt(c)) == ClustersOf(vol, Fat(was, vol), DirAt(c))
  {
    var t, d := Fat(was, vol), DirAt(c);
    forall x | x in ClustersOf(vol, t, d)
      ensures View(vol.kind, fb)[x] == t[x]
    {
      DirAvoidsFree(vol, t, d, s, n, x);
    }
    LaidListing(was, now, vol, fb, s, n, bytes, d);
    LaidSlots(was, now, vol, fb, s, n, bytes, d, SectorsIn(was, vol, d));
  }

  lemma FileStays(was: Bytes, now: Bytes, vol: Vol, fb: Bytes, s: nat, n: nat, bytes: Bytes, c: nat, data: Bytes)
    requires FileShown(was, vol, c, data) && InRun(was, vol, fb, s, n, bytes) && now == Laid(was, vol, fb, s, bytes)
    requires RunFree(Fat(was, vol), s, n) && View(vol.kind, fb) == Marked(vol.kind, Fat(was, vol), s, n)
    ensures FileShown(now, vol, c, data)
    ensures ChainOf(vol, Fat(now, vol), c, |data|) == ChainOf(vol, Fat(was, vol), c, |data|)
  {
    var t, cs := Fat(was, vol), ChainOf(vol, Fat(was, vol), c, |data|);
    LaidTables(was, now, vol, fb, s, n, bytes);
    forall i | 0 <= i < |cs|
      ensures Fat(now, vol)[cs[i]] == t[cs[i]] && SameCluster(was, now, vol, cs[i])
    {
      LaidCluster(was, now, vol, fb, s, n, bytes, cs[i]);
    }
    SameWalk(vol.kind, t, Fat(now, vol), c, ClustersNeeded(|data|, ClusterBytes(vol)), cs);
    SameGather(was, now, vol, cs);
  }

  /** Everything shown is still shown, and the new run belongs to no directory. */
  lemma StoredShows(was: Bytes, now: Bytes, vol: Vol, bytes: Bytes, s: nat, fb: Bytes, fs: FatTree.Fs)
    requires Shows(was, vol, fs) && bytes != [] && Stored(was, now, vol, bytes, s, fb)
    ensures Shows(now, vol, fs)
    ensures Fat(now, vol) == Marked(vol.kind, Fat(was, vol), s, ClustersNeeded(|bytes|, ClusterBytes(vol)))
    ensures forall d, x :: d in fs.dirs && x in ClustersOf(vol, Fat(now, vol), DirAt(d)) ==>
              !(s <= x < s + ClustersNeeded(|bytes|, ClusterBytes(vol)))
    ensures s !in fs.dirs && s !in fs.files
    ensures forall c :: c in fs.dirs ==> SectorsIn(now, vol, DirAt(c)) == SectorsIn(was, vol, DirAt(c))
  {
    var t, n := Fat(was, vol), ClustersNeeded(|bytes|, ClusterBytes(vol));
    LaidTables(was, now, vol, fb, s, n, bytes);
    forall c | c in fs.dirs
      ensures DirShown(now, vol, c, fs.dirs[c]) && c != s
      ensures SectorsIn(now, vol, DirAt(c)) == SectorsIn(was, vol, DirAt(c))
      ensures ClustersOf(vol, Fat(now, vol), DirAt(c)) == ClustersOf(vol, t, DirAt(c))
      ensures forall x :: x in ClustersOf(vol, t, DirAt(c)) ==> !(s <= x < s + n)
    {
      DirStays(was, now, vol, fb, s, n, bytes, c, fs.dirs[c]);
      OwnCluster(was, vol, c, s, n);
    }
    forall c | c in fs.files
      ensures FileShown(now, vol, c, fs.files[c]) && c != s
      ensures ChainOf(vol, Fat(now, vol), c, |fs.files[c]|) == ChainOf(vol, t, c, |fs.files[c]|)
    {
      FileStays(was, now, vol, fb, s, n, bytes, c, fs.files[c]);
      FirstOfChain(was, vol, c, fs.files[c]);
    }
    AllShown(was, now, vol, fs);
  }

  /** What is shown one by one, in the same clusters, is shown together. */
  lemma AllShown(was: Bytes, now: Bytes, vol: Vol, fs: FatTree.Fs)
    requires Shows(was, vol, fs) && Holds(now, vol)
    requires forall c :: c in fs.dirs ==>
               DirShown(now, vol, c, fs.dirs[c]) && ClustersOf(vol, Fat(now, vol), DirAt(c)) == ClustersOf(vol, Fat(was, vol), DirAt(c))
    requires forall c :: c in fs.files ==>
               FileShown(now, vol, c, fs.files[c])
               && ChainOf(vol, Fat(now, vol), c, |fs.files[c]|) == ChainOf(vol, Fat(was, vol), c, |fs.files[c]|)
    ensures Shows(now, vol, fs)
  {
    forall c, d | c in fs.dirs && d in fs.dirs && c != d
      ensures Elsewhere(vol, Fat(now, vol), ClustersOf(vol, Fat(now, vol), DirAt(c)), d)
    {
      assert Elsewhere(vol, Fat(was, vol), ClustersOf(vol, Fat(was, vol), DirAt(c)), d);
    }
    forall c, d | c in fs.files && d in fs.dirs
      ensures Elsewhere(vol, Fat(now, vol), ChainOf(vol, Fat(now, vol), c, |fs.files[c]|), d)
    {
      assert Elsewhere(vol, Fat(was, vol), ChainOf(vol, Fat(was, vol), c, |fs.files[c]|), d);
    }
  }

  lemma OwnCluster(img: Bytes, vol: Vol, c: nat, s: nat, n: nat)
    requires DirHeld(img, vol, DirAt(c)) && RunFree(Fat(img, vol), s, n) && n > 0
    ensures c != s && forall x :: x in ClustersOf(vol, Fat(img, vol), DirAt(c)) ==> !(s <= x < s + n)
  {
    var t, d := Fat(img, vol), DirAt(c);
    forall x | x in ClustersOf(vol, t, d)
      ensures !(s <= x < s + n)
    {
      DirAvoidsFree(vol, t, d, s, n, x);
    }
    if d.At? {
      DirClustersStep(vol, t, c, 0);
    }
  }

  lemma FirstOfChain(img: Bytes, vol: Vol, c: nat, data: Bytes)
    requires FileShown(img, vol, c, data)
    ensures 2 <= c < Entries(vol) && Fat(img, vol)[c] != 0
  {
    var cs := ChainOf(vol, Fat(img, vol), c, |data|);
    assert cs[0] == c;
  }

  // ---------------------------------------------------------------- a new file or directory

  /** What was stored is a file, in the run it was stored in. */
  lemma StoredFile(was: Bytes, now: Bytes, vol: Vol, data: Bytes, s: nat, fb: Bytes, run: seq<nat>)
    requires Holds(was, vol) && data != [] && Stored(was, now, vol, data, s, fb)
    requires run == seq(ClustersNeeded(|data|, ClusterBytes(vol)), i => s + i)
    ensures Holds(now, vol) && FileShown(now, vol, s, data) && ChainOf(vol, Fat(now, vol), s, |data|) == run
  {
    var t, n := Fat(was, vol), ClustersNeeded(|data|, ClusterBytes(vol));
    LaidTables(was, now, vol, fb, s, n, data);
    MarkThenClear(vol.kind, t, s, n, n);
    LaidReads(was, now, vol, fb, s, n, data);
    RunGathers(now, vol, s, n, run, data);
    forall i | 0 <= i < n
      ensures Fat(now, vol)[run[i]] != 0
    {
      assert run[i] == s + i;
    }
  }

  /** The start of what a run holds. */
  lemma RunGathers(now: Bytes, vol: Vol, s: nat, n: nat, run: seq<nat>, data: Bytes)
    requires Holds(now, vol) && s >= 2 && s + n <= Entries(vol) && run == seq(n, i => s + i)
    requires n == ClustersNeeded(|data|, ClusterBytes(vol)) && ClusterOff(vol, s) + |data| <= |now|
    requires now[ClusterOff(vol, s)..ClusterOff(vol, s) + |data|] == data
    ensures |data| <= |Gather(now, vol, run)| && data == Gather(now, vol, run)[..|data|]
  {
    GatherRun(now, vol, s, n, run);
    NeededCovers(|data|, ClusterBytes(vol));
    RunBytes(vol, s, n);
    SliceOfSlice(now, ClusterOff(vol, s), ClusterOff(vol, s + n), 0, |data|);
  }

  lemma LaidReads(was: Bytes, now: Bytes, vol: Vol, fb: Bytes, s: nat, n: nat, data: Bytes)
    requires InRun(was, vol, fb, s, n, data) && now == Laid(was, vol, fb, s, data)
    ensures now[ClusterOff(vol, s)..ClusterOff(vol, s) + |data|] == data
  {
    var o := ClusterOff(vol, s);
    SpliceInside(PutFats(was, vol, fb), o, data, o, o + |data|);
    assert data[0..|data|] == data;
  }

  lemma FileJoins(img: Bytes, vol: Vol, fs: FatTree.Fs, s: nat, data: Bytes)
    requires Shows(img, vol, fs) && FileShown(img, vol, s, data)
    requires forall d :: d in fs.dirs ==> Elsewhere(vol, Fat(img, vol), ChainOf(vol, Fat(img, vol), s, |data|), d)
    ensures Shows(img, vol, fs.(files := fs.files[s := data]))
  {
  }

  /** A cleared cluster that ends its chain is a directory of blank slots. */
  lemma StoredDir(was: Bytes, now: Bytes, vol: Vol, s: nat, fb: Bytes)
    requires Holds(was, vol) && Stored(was, now, vol, Fill(ClusterBytes(vol), 0), s, fb)
    ensures s >= 2 && DirShown(now, vol, s, Blank(SLOTS * vol.spc)) && ClustersOf(vol, Fat(now, vol), DirAt(s)) == [s]
  {
    var z, t := Fill(ClusterBytes(vol), 0), Fat(was, vol);
    OneCluster(ClusterBytes(vol));
    LaidTables(was, now, vol, fb, s, 1, z);
    var u := Fat(now, vol);
    DirClustersStep(vol, u, s, 0);
    assert DirClusters(vol, u, s, 0) == [s];
    var secs := SectorsFrom(ClusterOff(vol, s), vol.spc);
    SectorsOfCons(vol, s, []);
    assert [s] + [] == [s] && secs + SectorsOf(vol, []) == secs;
    LaidReads(was, now, vol, fb, s, 1, z);
    ClearedSlots(now, ClusterOff(vol, s), vol.spc);
  }

  lemma OneCluster(d: nat)
    requires d > 0
    ensures ClustersNeeded(d, d) == 1
  {
    NeededCovers(d, d);
    if ClustersNeeded(d, d) >= 2 {
      MulMono(1, ClustersNeeded(d, d) - 1, d);
    }
  }

  lemma DirJoins(img: Bytes, vol: Vol, fs: FatTree.Fs, k: nat, slots: seq<Slot>)
    requires Shows(img, vol, fs) && DirShown(img, vol, k, slots) && k >= 2 && k !in fs.dirs
    requires ClustersOf(vol, Fat(img, vol), DirAt(k)) == [k]
    requires forall d :: d in fs.dirs ==> k !in ClustersOf(vol, Fat(img, vol), DirAt(d))
    requires forall c :: c in fs.files ==> k !in ChainOf(vol, Fat(img, vol), c, |fs.files[c]|)
    ensures Shows(img, vol, fs.(dirs := fs.dirs[k := slots]))
  {
  }

  /** A chain of old clusters holds no cluster that was free. */
  lemma ChainsAvoidFree(was: Bytes, now: Bytes, vol: Vol, fs: FatTree.Fs, s: nat, bytes: Bytes, fb: Bytes, c: nat)
    requires Shows(was, vol, fs) && bytes != [] && Stored(was, now, vol, bytes, s, fb) && c in fs.files
    ensures Holds(now, vol) && s !in ChainOf(vol, Fat(now, vol), c, |fs.files[c]|)
  {
    var t, n := Fat(was, vol), ClustersNeeded(|bytes|, ClusterBytes(vol));
    FileStays(was, now, vol, fb, s, n, bytes, c, fs.files[c]);
    assert t[s] == 0;
  }

  // ---------------------------------------------------------------- a directory's slots changed

  lemma SlotsShown(was: Bytes, now: Bytes, vol: Vol, c: nat, d: nat, secs: seq<nat>, slots: seq<Slot>)
    requires DirHeld(was, vol, DirAt(c)) && secs == SectorsIn(was, vol, DirAt(c)) && LongNameDir.OnlyDir(was, now, secs)
    requires DirShown(was, vol, d, slots) && Elsewhere(vol, Fat(was, vol), ClustersOf(vol, Fat(was, vol), DirAt(d)), c)
    requires c != d && (c == FIXED || d == FIXED ==> vol.kind.Fat16?)
    ensures DirShown(now, vol, d, slots)
  {
    var t, other := Fat(was, vol), SectorsIn(was, vol, DirAt(d));
    LongNameDir.ListedAgain(was, now, vol, DirAt(c), secs);
    TablesAgain(was, now, vol, c, secs);
    forall j | 0 <= j < |other|
      ensures now[other[j]..other[j] + SECTOR] == was[other[j]..other[j] + SECTOR]
    {
      SectorUntouched(was, now, vol, c, d, secs, other, j);
    }
    SameSlots(was, now, other);
  }

  lemma TablesAgain(was: Bytes, now: Bytes, vol: Vol, c: nat, secs: seq<nat>)
    requires DirHeld(was, vol, DirAt(c)) && secs == SectorsIn(was, vol, DirAt(c)) && LongNameDir.OnlyDir(was, now, secs)
    ensures Holds(now, vol) && Fat(now, vol) == Fat(was, vol)
    ensures vol.base + SECTOR <= |was| && now[vol.base..vol.base + SECTOR] == was[vol.base..vol.base + SECTOR]
  {
    HoldsTable(was, vol);
    forall j | 0 <= j < |secs|
      ensures FatEnd(vol) <= secs[j]
    {
      SectorsHome(vol, Fat(was, vol), DirAt(c), j);
      HomeInside(was, vol, ClustersOf(vol, Fat(was, vol), DirAt(c)), secs[j]);
    }
    assert now[FatOff(vol)..FatEnd(vol)] == was[FatOff(vol)..FatEnd(vol)];
    TablesKept(was, now, vol);
  }

  /** Sectors of different directories do not overlap. */
  lemma SectorUntouched(was: Bytes, now: Bytes, vol: Vol, c: nat, d: nat, secs: seq<nat>, other: seq<nat>, j: nat)
    requires DirHeld(was, vol, DirAt(c)) && secs == SectorsIn(was, vol, DirAt(c)) && LongNameDir.OnlyDir(was, now, secs)
    requires DirHeld(was, vol, DirAt(d)) && other == SectorsIn(was, vol, DirAt(d)) && j < |other|
    requires Elsewhere(vol, Fat(was, vol), ClustersOf(vol, Fat(was, vol), DirAt(d)), c) && c != d
    ensures other[j] + SECTOR <= |was| && now[other[j]..other[j] + SECTOR] == was[other[j]..other[j] + SECTOR]
  {
    var t, o := Fat(was, vol), other[j];
    forall i | 0 <= i < |secs|
      ensures secs[i] + SECTOR <= o || o + SECTOR <= secs[i]
    {
      SectorsDisjoint(was, vol, c, d, secs, other, i, j);
    }
  }

  lemma SectorsDisjoint(img: Bytes, vol: Vol, c: nat, d: nat, secs: seq<nat>, other: seq<nat>, i: nat, j: nat)
    requires DirHeld(img, vol, DirAt(c)) && secs == SectorsIn(img, vol, DirAt(c)) && i < |secs|
    requires DirHeld(img, vol, DirAt(d)) && other == SectorsIn(img, vol, DirAt(d)) && j < |other|
    requires Elsewhere(vol, Fat(img, vol), ClustersOf(vol, Fat(img, vol), DirAt(d)), c) && c != d
    ensures secs[i] + SECTOR <= other[j] || other[j] + SECTOR <= secs[i]
  {
    if d == FIXED {
      FixedApart(img, vol, c, secs, other, i, j);
    } else {
      ChainApart(img, vol, c, d, secs, other, i, j);
    }
  }

  lemma FixedApart(img: Bytes, vol: Vol, c: nat, secs: seq<nat>, other: seq<nat>, i: nat, j: nat)
    requires DirHeld(img, vol, DirAt(c)) && secs == SectorsIn(img, vol, DirAt(c)) && i < |secs| && c != FIXED
    requires DirHeld(img, vol, FixedRoot) && other == SectorsIn(img, vol, FixedRoot) && j < |other|
    ensures other[j] + SECTOR <= secs[i]
  {
    var t := Fat(img, vol);
    InCluster(vol, t, c, i);
    FixedRootHome(vol, j);
    var x :| x in ClustersOf(vol, t, DirAt(c)) && ClusterOff(vol, x) <= secs[i] && secs[i] + SECTOR <= ClusterOff(vol, x + 1);
    RunBytes(vol, x, 0);
  }

  lemma ChainApart(img: Bytes, vol: Vol, c: nat, d: nat, secs: seq<nat>, other: seq<nat>, i: nat, j: nat)
    requires DirHeld(img, vol, DirAt(c)) && secs == SectorsIn(img, vol, DirAt(c)) && i < |secs|
    requires DirHeld(img, vol, DirAt(d)) && other == SectorsIn(img, vol, DirAt(d)) && j < |other| && d != FIXED
    requires Elsewhere(vol, Fat(img, vol), ClustersOf(vol, Fat(img, vol), DirAt(d)), c)
    ensures secs[i] + SECTOR <= other[j] || other[j] + SECTOR <= secs[i]
  {
    var t := Fat(img, vol);
    InCluster(vol, t, d, j);
    var y :| y in ClustersOf(vol, t, DirAt(d)) && ClusterOff(vol, y) <= other[j] && other[j] + SECTOR <= ClusterOff(vol, y + 1);
    SectorsHome(vol, t, DirAt(c), i);
    HomeOutside(vol, ClustersOf(vol, t, DirAt(c)), secs[i], y);
  }

  /** A sector of a directory that is a chain lies in one of its clusters. */
  lemma InCluster(vol: Vol, t: Table, c: nat, i: nat)
    requires Geometry(vol) && vol.base % SECTOR == 0 && c != FIXED && DirOk(vol, t, DirAt(c)) && i < |DirSectors(vol, t, DirAt(c))|
    ensures var o := DirSectors(vol, t, DirAt(c))[i];
            exists x :: x in ClustersOf(vol, t, DirAt(c)) && ClusterOff(vol, x) <= o && o + SECTOR <= ClusterOff(vol, x + 1)
  {
    var cs := ClustersOf(vol, t, DirAt(c));
    SectorCount(vol, cs);
    var q, r := SplitIndex(i, vol.spc, |cs|);
    SectorIndex(vol, cs, q, r);
    RunBytes(vol, cs[q], 1);
    MulMono(r + 1, vol.spc, SECTOR);
    assert cs[q] in cs;
  }

  /** A cluster of no sector of the directory keeps its bytes. */
  lemma ClusterUntouched(was: Bytes, now: Bytes, vol: Vol, c: nat, secs: seq<nat>, x: Cluster)
    requires DirHeld(was, vol, DirAt(c)) && secs == SectorsIn(was, vol, DirAt(c)) && LongNameDir.OnlyDir(was, now, secs)
    requires x < Entries(vol) && x !in ClustersOf(vol, Fat(was, vol), DirAt(c))
    ensures SameCluster(was, now, vol, x)
  {
    RunRoom(was, vol, x, 1, 0);
    forall i | 0 <= i < |secs|
      ensures secs[i] + SECTOR <= ClusterOff(vol, x) || ClusterOff(vol, x + 1) <= secs[i]
    {
      SectorsHome(vol, Fat(was, vol), DirAt(c), i);
      HomeOutside(vol, ClustersOf(vol, Fat(was, vol), DirAt(c)), secs[i], x);
    }
  }

  lemma FileUntouched(was: Bytes, now: Bytes, vol: Vol, c: nat, secs: seq<nat>, f: nat, data: Bytes)
    requires DirHeld(was, vol, DirAt(c)) && secs == SectorsIn(was, vol, DirAt(c)) && LongNameDir.OnlyDir(was, now, secs)
    requires FileShown(was, vol, f, data) && Elsewhere(vol, Fat(was, vol), ChainOf(vol, Fat(was, vol), f, |data|), c)
    ensures FileShown(now, vol, f, data)
  {
    var cs := ChainOf(vol, Fat(was, vol), f, |data|);
    TablesAgain(was, now, vol, c, secs);
    forall i | 0 <= i < |cs|
      ensures SameCluster(was, now, vol, cs[i])
    {
      ClusterUntouched(was, now, vol, c, secs, cs[i]);
    }
    SameGather(was, now, vol, cs);
  }

  /** Other slots in one directory: everything else is shown as before. */
  lemma InstalledShows(was: Bytes, now: Bytes, vol: Vol, fs: FatTree.Fs, c: nat, secs: seq<nat>, slots: seq<Slot>)
    requires Shows(was, vol, fs) && c in fs.dirs && secs == SectorsIn(was, vol, DirAt(c))
    requires LongNameDir.OnlyDir(was, now, secs) && SectorsInside(now, secs) && slots == Slots(now, secs)
    ensures Shows(now, vol, fs.(dirs := fs.dirs[c := slots]))
    ensures Fat(now, vol) == Fat(was, vol)
  {
    TablesAgain(was, now, vol, c, secs);
    LongNameDir.ListedAgain(was, now, vol, DirAt(c), secs);
    forall d | d in fs.dirs && d != c
      ensures DirShown(now, vol, d, fs.dirs[d])
    {
      SlotsShown(was, now, vol, c, d, secs, fs.dirs[d]);
    }
    FilesUntouched(was, now, vol, fs, c, secs);
  }

  lemma FilesUntouched(was: Bytes, now: Bytes, vol: Vol, fs: FatTree.Fs, c: nat, secs: seq<nat>)
    requires Shows(was, vol, fs) && c in fs.dirs && secs == SectorsIn(was, vol, DirAt(c))
    requires LongNameDir.OnlyDir(was, now, secs) && SectorsInside(now, secs)
    ensures forall f :: f in fs.files ==> FileShown(now, vol, f, fs.files[f])
  {
    forall f | f in fs.files
      ensures FileShown(now, vol, f, fs.files[f])
    {
      FileUntouched(was, now, vol, c, secs, f, fs.files[f]);
    }
  }

  // ---------------------------------------------------------------- names and paths

  lemma EntryShown(img: Bytes, vol: Vol, c: nat, slots: seq<Slot>, name: Name, wantDir: bool)
    requires DirShown(img, vol, c, slots)
    ensures EntryIn(img, vol, DirAt(c), name, wantDir) ==
            match Search(slots, 0, name, wantDir) case None => None case Some(j) => Some(EntryOf(slots, j))
  {
    LookupIsSearch(img, SectorsIn(img, vol, DirAt(c)), name, wantDir);
  }

  /** A path leads on the image where it leads in the picture. */
  lemma {:induction false} PathShown(img: Bytes, vol: Vol, fs: FatTree.Fs, c: nat, path: seq<Name>)
    requires Shows(img, vol, fs) && FatTree.Reaches(fs, c, path)
    ensures PathHeld(img, vol, DirAt(c), path)
    ensures Resolve(img, vol, DirAt(c), path) ==
            match FatTree.Resolve(fs, c, path) case None => None case Some(k) => Some(DirAt(k))
    decreases |path|
  {
    if path != [] {
      EntryShown(img, vol, c, fs.dirs[c], path[0], true);
      var j := Search(fs.dirs[c], 0, path[0], true);
      if j.Some? {
        PathShown(img, vol, fs, FatTree.ClusterOf(fs.dirs[c][j.value]), path[1..]);
      }
    }
  }

  /** A file that is found and contiguous reads as its contents. */
  lemma ReadShown(img: Bytes, vol: Vol, f: Found, data: Bytes)
    requires FileShown(img, vol, f.cluster, data) && f.size == |data| && LocatedAt(vol, Fat(img, vol), f).Ok?
    ensures DataOff(vol, f) + |data| <= |img| && img[DataOff(vol, f)..DataOff(vol, f) + |data|] == data
  {
    FirstOfChain(img, vol, f.cluster, data);
    var n := ClustersNeeded(|data|, ClusterBytes(vol));
    RunWalks(vol.kind, Fat(img, vol), f.cluster, n, n);
    var run := ChainOf(vol, Fat(img, vol), f.cluster, |data|);
    GatherRun(img, vol, f.cluster, n, run);
    NeededCovers(|data|, ClusterBytes(vol));
    RunBytes(vol, f.cluster, n);
    SliceOfSlice(img, ClusterOff(vol, f.cluster), ClusterOff(vol, f.cluster + n), 0, |data|);
  }
}
