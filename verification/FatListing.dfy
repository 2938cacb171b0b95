/**
 Directory listings as images change: writes elsewhere keep every slot, a chain that ends lists each
 sector once, and a blank cluster at its end adds blank slots (xtask/src/fat32_write.rs).
 */
module FatListing {
  import opened Base
  import opened Words
  import opened DirSlots
  import opened FatTable
  import opened Disk
  import opened FatVolume
  import opened FatFiles
  import opened FatFrame
  import opened FatSlots
  import opened FatGrow
  import opened FatInstall

  // ---------------------------------------------------------------- sectors listed once

  predicate Distinct(s: seq<nat>) {
    forall i, j :: 0 <= i < j < |s| ==> s[i] != s[j]
  }

  /** What a chain lists does not depend on how much was listed before, as long as it ends in time. */
  lemma {:induction false} SameTail(vol: Vol, t: Table, c: nat, a: nat, b: nat)
    requires vol.spc > 0 && Numbered(vol.kind, t) && EndedFrom(vol, t, c, a) && EndedFrom(vol, t, c, b)
    ensures DirClusters(vol, t, c, a) == DirClusters(vol, t, c, b)
    decreases SECTOR_LIMIT + vol.spc - a
  {
    DirClustersStep(vol, t, c, a);
    DirClustersStep(vol, t, c, b);
    if !(t[c] < 2 || IsEoc(vol.kind, t[c])) {
      SameTail(vol, t, t[c], a + vol.spc, b + vol.spc);
    }
  }

  /** What is left of a listing is as long as the listing from its first cluster. */
  lemma {:induction false} TailAt(vol: Vol, t: Table, c: nat, have: nat, i: nat) returns (later: nat)
    requires vol.spc > 0 && Numbered(vol.kind, t) && EndedFrom(vol, t, c, have) && i < |DirClusters(vol, t, c, have)|
    ensures var cs := DirClusters(vol, t, c, have);
            EndedFrom(vol, t, cs[i], later) && |DirClusters(vol, t, cs[i], later)| == |cs| - i
    decreases i
  {
    DirClustersStep(vol, t, c, have);
    later := have;
    if i > 0 {
      later := TailAt(vol, t, t[c], have + vol.spc, i - 1);
    }
  }

  lemma EndedDistinct(vol: Vol, t: Table, c: nat)
    requires vol.spc > 0 && Numbered(vol.kind, t) && EndedFrom(vol, t, c, 0)
    ensures Distinct(DirClusters(vol, t, c, 0))
  {
    var cs := DirClusters(vol, t, c, 0);
    forall i, j | 0 <= i < j < |cs|
      ensures cs[i] != cs[j]
    {
      var a := TailAt(vol, t, c, 0, i);
      var b := TailAt(vol, t, c, 0, j);
      if cs[i] == cs[j] {
        SameTail(vol, t, cs[i], a, b);
      }
    }
  }

  lemma {:induction false} SectorIndex(vol: Vol, cs: seq<Cluster>, q: nat, r: nat)
    requires q < |cs| && r < vol.spc
    ensures q * vol.spc + r < |SectorsOf(vol, cs)|
    ensures SectorsOf(vol, cs)[q * vol.spc + r] == ClusterOff(vol, cs[q]) + r * SECTOR
  {
    if q > 0 {
      SectorIndex(vol, cs[1..], q - 1, r);
      assert q * vol.spc == vol.spc + (q - 1) * vol.spc;
    } else {
      assert q * vol.spc == 0;
    }
  }

  lemma {:induction false} SectorCount(vol: Vol, cs: seq<Cluster>)
    ensures |SectorsOf(vol, cs)| == |cs| * vol.spc
  {
    if cs != [] {
      SectorCount(vol, cs[1..]);
      assert |cs| * vol.spc == vol.spc + (|cs| - 1) * vol.spc;
    }
  }

  lemma SectorsDistinct(vol: Vol, cs: seq<Cluster>)
    requires vol.spc > 0 && Distinct(cs)
    ensures Distinct(SectorsOf(vol, cs))
  {
    var s := SectorsOf(vol, cs);
    SectorCount(vol, cs);
    forall i, j | 0 <= i < j < |s|
      ensures s[i] != s[j]
    {
      var q, r := SplitIndex(i, vol.spc, |cs|);
      var q', r' := SplitIndex(j, vol.spc, |cs|);
      SectorsDiffer(vol, cs, i, j, q, r, q', r');
    }
  }

  lemma SplitIndex(i: nat, d: nat, n: nat) returns (q: nat, r: nat)
    requires d > 0 && i < n * d
    ensures q < n && r < d && i == q * d + r
  {
    q, r := i / d, i % d;
    if q >= n {
      MulMono(n, q, d);
    }
  }

  lemma SectorsDiffer(vol: Vol, cs: seq<Cluster>, i: nat, j: nat, q: nat, r: nat, q': nat, r': nat)
    requires Distinct(cs) && q < |cs| && q' < |cs| && r < vol.spc && r' < vol.spc
    requires i == q * vol.spc + r && j == q' * vol.spc + r' && i != j
    ensures i < |SectorsOf(vol, cs)| && j < |SectorsOf(vol, cs)| && SectorsOf(vol, cs)[i] != SectorsOf(vol, cs)[j]
  {
    SectorIndex(vol, cs, q, r);
    SectorIndex(vol, cs, q', r');
    var a, b := cs[q], cs[q'];
    RunBytes(vol, a, 1);
    RunBytes(vol, b, 1);
    if a < b {
      ClusterOrder(vol, a + 1, b);
    } else if b < a {
      ClusterOrder(vol, b + 1, a);
    } else {
      assert q == q';
    }
  }

  /** The sectors of the root directory are listed once each. */
  lemma RootDistinct(img: Bytes, vol: Vol)
    requires RootHeld(img, vol) && RootEnds(vol, Fat(img, vol))
    ensures Distinct(SectorsIn(img, vol, RootDir(vol)))
  {
    if vol.kind.Fat32? {
      EndedDistinct(vol, Fat(img, vol), RootCluster(vol));
      SectorsDistinct(vol, DirClusters(vol, Fat(img, vol), RootCluster(vol), 0));
    }
  }

  // ---------------------------------------------------------------- slots and writes

  ghost predicate Aligned(secs: seq<nat>) {
    forall j :: 0 <= j < |secs| ==> secs[j] % SECTOR == 0
  }

  /** A new entry changes one slot of a listing without repeated sectors. */
  lemma NewInListing(img: Bytes, secs: seq<nat>, k: nat, s: nat, name: Name, cluster: nat, size: nat, slots: seq<Slot>)
    requires SectorsInside(img, secs) && Distinct(secs) && Aligned(secs) && k < SLOTS * |secs| && s == SlotOff(secs, k)
    requires s + SLOT <= |img| && slots == Slots(img, secs)
    ensures SectorsInside(PutNew(img, s, name, cluster, size), secs)
    ensures Slots(PutNew(img, s, name, cluster, size), secs) == slots[k := NewSlot(slots[k], name, cluster, size)]
  {
    var e := NewSlot(img[s..s + SLOT], name, cluster, size);
    var now := PutNew(img, s, name, cluster, size);
    forall i | 0 <= i < |slots|
      ensures Slots(now, secs)[i] == slots[k := e][i]
    {
      SlotInside(img, secs, i);
      var o := SlotOff(secs, i);
      if i == k {
        SpliceInside(img, s, e, s, s + SLOT);
        assert e[0..SLOT] == e;
      } else {
        SlotsSeparate(secs, i, k);
        SpliceApart(img, s, e, o, o + SLOT);
      }
    }
  }

  lemma SlotsSeparate(secs: seq<nat>, i: nat, k: nat)
    requires Distinct(secs) && Aligned(secs) && i < SLOTS * |secs| && k < SLOTS * |secs| && i != k
    ensures SlotOff(secs, i) + SLOT <= SlotOff(secs, k) || SlotOff(secs, k) + SLOT <= SlotOff(secs, i)
  {
    var a, b := secs[i / SLOTS], secs[k / SLOTS];
    SectorsApart(a, b);
    if i / SLOTS < k / SLOTS {
      assert a != b;
    } else if k / SLOTS < i / SLOTS {
      assert a != b;
    }
  }

  lemma SectorsApart(a: nat, b: nat)
    requires a % SECTOR == 0 && b % SECTOR == 0
    ensures a == b || a + SECTOR <= b || b + SECTOR <= a
  {
  }

  lemma SameSlots(img: Bytes, now: Bytes, secs: seq<nat>)
    requires SectorsInside(img, secs) && |now| == |img|
    requires forall j :: 0 <= j < |secs| ==> now[secs[j]..secs[j] + SECTOR] == img[secs[j]..secs[j] + SECTOR]
    ensures SectorsInside(now, secs) && Slots(now, secs) == Slots(img, secs)
  {
    forall i | 0 <= i < SLOTS * |secs|
      ensures Slots(now, secs)[i] == Slots(img, secs)[i]
    {
      SlotInside(img, secs, i);
      var a := secs[i / SLOTS];
      SameSlice(img, now, a, a + SECTOR, SlotOff(secs, i), SlotOff(secs, i) + SLOT);
    }
  }

  lemma SlotsJoined(img: Bytes, a: seq<nat>, b: seq<nat>)
    requires SectorsInside(img, a) && SectorsInside(img, b)
    ensures SectorsInside(img, a + b) && Slots(img, a + b) == Slots(img, a) + Slots(img, b)
  {
    var both := Slots(img, a) + Slots(img, b);
    assert SectorsInside(img, a + b);
    forall i | 0 <= i < SLOTS * |a + b|
      ensures Slots(img, a + b)[i] == both[i]
    {
      if i < SLOTS * |a| {
        assert (a + b)[i / SLOTS] == a[i / SLOTS];
        assert SlotOff(a + b, i) == SlotOff(a, i);
      } else {
        var k := i - SLOTS * |a|;
        assert k / SLOTS == i / SLOTS - |a| && k % SLOTS == i % SLOTS;
        assert SlotOff(a + b, i) == SlotOff(b, k);
      }
    }
  }

  /** The slots of a cleared run of sectors are blank. */
  lemma ClearedSlots(img: Bytes, off: nat, n: nat)
    requires off + n * SECTOR <= |img| && img[off..off + n * SECTOR] == Fill(n * SECTOR, 0)
    ensures SectorsInside(img, SectorsFrom(off, n)) && Slots(img, SectorsFrom(off, n)) == Blank(SLOTS * n)
  {
    var secs := SectorsFrom(off, n);
    forall j | 0 <= j < n
      ensures secs[j] + SECTOR <= |img|
    {
      MulMono(j + 1, n, SECTOR);
    }
    forall i | 0 <= i < SLOTS * n
      ensures Slots(img, secs)[i] == Blank(SLOTS * n)[i]
    {
      var s := SlotOff(secs, i);
      assert s == off + i * SLOT;
      var e := img[s..s + SLOT];
      forall x | 0 <= x < SLOT
        ensures e[x] == 0
      {
        assert img[s + x] == img[off..off + n * SECTOR][i * SLOT + x];
      }
    }
  }

  // ---------------------------------------------------------------- new tables and bytes in free clusters

  /** The bytes stay inside a run of clusters. */
  ghost predicate InRun(img: Bytes, vol: Vol, fb: Bytes, s: nat, n: nat, bytes: Bytes) {
    && Holds(img, vol) && |fb| == FatBytes(vol) && s >= 2 && s + n <= Entries(vol) && |bytes| <= n * ClusterBytes(vol)
    && FatEnd(vol) <= ClusterOff(vol, s) && ClusterOff(vol, s) + |bytes| <= |img|
  }

  lemma InRunHolds(img: Bytes, vol: Vol, fb: Bytes, s: nat, n: nat, bytes: Bytes)
    requires Holds(img, vol) && |fb| == FatBytes(vol) && s >= 2 && s + n <= Entries(vol) && |bytes| <= n * ClusterBytes(vol)
    ensures InRun(img, vol, fb, s, n, bytes)
  {
    RunRoom(img, vol, s, n, |bytes|);
  }

  lemma LaidTables(img: Bytes, now: Bytes, vol: Vol, fb: Bytes, s: nat, n: nat, bytes: Bytes)
    requires InRun(img, vol, fb, s, n, bytes) && now == Laid(img, vol, fb, s, bytes)
    ensures Holds(now, vol) && Mirrored(now, vol) && Fat(now, vol) == View(vol.kind, fb)
  {
    var put := PutFats(img, vol, fb);
    PutFatsRead(img, vol, fb);
    CopiesEnd(img, vol, fb);
    SpliceApart(put, ClusterOff(vol, s), bytes, FatOff(vol), FatEnd(vol));
    TablesKept(put, now, vol);
  }

  lemma LaidRange(img: Bytes, now: Bytes, vol: Vol, fb: Bytes, s: nat, n: nat, bytes: Bytes, lo: nat, hi: nat)
    requires InRun(img, vol, fb, s, n, bytes) && now == Laid(img, vol, fb, s, bytes)
    requires lo <= hi <= |img| && (hi <= FatOff(vol) || FatEnd(vol) <= lo)
    requires hi <= ClusterOff(vol, s) || ClusterOff(vol, s) + |bytes| <= lo
    ensures now[lo..hi] == img[lo..hi]
  {
    TablesApart(img, vol, fb, lo, hi);
    SpliceApart(PutFats(img, vol, fb), ClusterOff(vol, s), bytes, lo, hi);
  }

  lemma LaidCluster(img: Bytes, now: Bytes, vol: Vol, fb: Bytes, s: nat, n: nat, bytes: Bytes, c: Cluster)
    requires InRun(img, vol, fb, s, n, bytes) && now == Laid(img, vol, fb, s, bytes) && c < Entries(vol) && !(s <= c < s + n)
    ensures FatEnd(vol) <= ClusterOff(vol, c) <= ClusterOff(vol, c + 1) <= |img|
    ensures now[ClusterOff(vol, c)..ClusterOff(vol, c + 1)] == img[ClusterOff(vol, c)..ClusterOff(vol, c + 1)]
  {
    RunRoom(img, vol, c, 1, 0);
    RunsInOrder(vol, s, n, |bytes|, c);
    LaidRange(img, now, vol, fb, s, n, bytes, ClusterOff(vol, c), ClusterOff(vol, c + 1));
  }

  lemma LaidBoot(img: Bytes, now: Bytes, vol: Vol, fb: Bytes, s: nat, n: nat, bytes: Bytes, lba: nat)
    requires InRun(img, vol, fb, s, n, bytes) && now == Laid(img, vol, fb, s, bytes) && ReadVol(img, lba) == Ok(vol)
    ensures ReadVol(now, lba) == Ok(vol)
  {
    HoldsTable(img, vol);
    LaidRange(img, now, vol, fb, s, n, bytes, vol.base, vol.base + SECTOR);
    ReadVolKept(img, now, lba);
  }

  /** A directory's clusters avoid a run of free ones. */
  lemma DirAvoidsFree(vol: Vol, t: Table, d: Dir, s: nat, n: nat, x: Cluster)
    requires vol.spc > 0 && DirOk(vol, t, d) && RunFree(t, s, n) && x in ClustersOf(vol, t, d)
    ensures x < |t| && t[x] != 0 && !(s <= x < s + n)
  {
  }

  lemma LaidSector(img: Bytes, now: Bytes, vol: Vol, fb: Bytes, s: nat, n: nat, bytes: Bytes, d: Dir, o: nat)
    requires InRun(img, vol, fb, s, n, bytes) && now == Laid(img, vol, fb, s, bytes)
    requires DirOk(vol, Fat(img, vol), d) && RunFree(Fat(img, vol), s, n)
    requires Home(vol, ClustersOf(vol, Fat(img, vol), d), o) && o + SECTOR <= |img| && FatEnd(vol) <= o
    ensures now[o..o + SECTOR] == img[o..o + SECTOR]
  {
    var cs := ClustersOf(vol, Fat(img, vol), d);
    if x :| x in cs && ClusterOff(vol, x) <= o && o + SECTOR <= ClusterOff(vol, x + 1) {
      DirAvoidsFree(vol, Fat(img, vol), d, s, n, x);
      LaidCluster(img, now, vol, fb, s, n, bytes, x);
      SameSlice(img, now, ClusterOff(vol, x), ClusterOff(vol, x + 1), o, o + SECTOR);
    } else {
      RunBytes(vol, s, 0);
      LaidRange(img, now, vol, fb, s, n, bytes, o, o + SECTOR);
    }
  }

  /** The slots of a directory survive writes to free clusters. */
  lemma LaidSlots(img: Bytes, now: Bytes, vol: Vol, fb: Bytes, s: nat, n: nat, bytes: Bytes, d: Dir, secs: seq<nat>)
    requires InRun(img, vol, fb, s, n, bytes) && now == Laid(img, vol, fb, s, bytes)
    requires DirHeld(img, vol, d) && RunFree(Fat(img, vol), s, n) && secs == SectorsIn(img, vol, d)
    ensures SectorsInside(now, secs) && Slots(now, secs) == Slots(img, secs)
  {
    forall j | 0 <= j < |secs|
      ensures now[secs[j]..secs[j] + SECTOR] == img[secs[j]..secs[j] + SECTOR]
    {
      SectorsHome(vol, Fat(img, vol), d, j);
      HomeInside(img, vol, ClustersOf(vol, Fat(img, vol), d), secs[j]);
      LaidSector(img, now, vol, fb, s, n, bytes, d, secs[j]);
    }
    SameSlots(img, now, secs);
  }

  /** So does its listing, if the new table agrees on its clusters. */
  lemma LaidListing(img: Bytes, now: Bytes, vol: Vol, fb: Bytes, s: nat, n: nat, bytes: Bytes, d: Dir)
    requires InRun(img, vol, fb, s, n, bytes) && now == Laid(img, vol, fb, s, bytes) && DirHeld(img, vol, d)
    requires |View(vol.kind, fb)| == Entries(vol)
    requires forall x :: x in ClustersOf(vol, Fat(img, vol), d) ==> View(vol.kind, fb)[x] == Fat(img, vol)[x]
    ensures DirHeld(now, vol, d) && SectorsIn(now, vol, d) == SectorsIn(img, vol, d)
    ensures ClustersOf(vol, Fat(now, vol), d) == ClustersOf(vol, Fat(img, vol), d)
  {
    LaidTables(img, now, vol, fb, s, n, bytes);
    SameDir(vol, Fat(img, vol), View(vol.kind, fb), d);
  }

  // ---------------------------------------------------------------- the root directory one cluster longer

  lemma GrownListing(was: Bytes, now: Bytes, vol: Vol, added: Cluster, fb: Bytes)
    requires RootHeld(was, vol) && RootEnds(vol, Fat(was, vol)) && vol.kind.Fat32? && RootGrown(was, now, vol, added, fb)
    ensures Holds(now, vol) && Mirrored(now, vol) && Fat(now, vol) == View(vol.kind, fb)
    ensures ClustersOf(vol, Fat(now, vol), RootDir(vol)) == ClustersOf(vol, Fat(was, vol), RootDir(vol)) + [added]
    ensures RootHeld(now, vol)
    ensures SectorsIn(now, vol, RootDir(vol))
         == SectorsIn(was, vol, RootDir(vol)) + SectorsFrom(ClusterOff(vol, added), vol.spc)
  {
    var t, u, c := Fat(was, vol), View(vol.kind, fb), RootCluster(vol);
    var last := Last(vol, t, c, 0);
    InRunHolds(was, vol, fb, added, 1, Fill(ClusterBytes(vol), 0));
    LaidTables(was, now, vol, fb, added, 1, Fill(ClusterBytes(vol), 0));
    AppendedChain(vol, t, c, 0, last, added, u);
    AppendedOk(vol, t, c, last, added, u);
    SectorsOfAppend(vol, DirClusters(vol, t, c, 0), added);
  }

  lemma AppendedOk(vol: Vol, t: Table, c: nat, last: nat, added: Cluster, u: Table)
    requires vol.spc > 0 && Numbered(vol.kind, t) && DirOk(vol, t, At(c)) && added < |t| && t[added] == 0 && last < |t|
    requires u == Appended(vol.kind, t, last, added) && DirClusters(vol, u, c, 0) == DirClusters(vol, t, c, 0) + [added]
    ensures DirOk(vol, u, At(c))
  {
    forall x | x in DirClusters(vol, u, c, 0)
      ensures InUse(vol.kind, u, x)
    {
      if x != added {
        assert x in DirClusters(vol, t, c, 0);
        assert InUse(vol.kind, t, x);
      }
    }
  }

  lemma {:induction false} SectorsOfAppend(vol: Vol, cs: seq<Cluster>, c: Cluster)
    ensures SectorsOf(vol, cs + [c]) == SectorsOf(vol, cs) + SectorsFrom(ClusterOff(vol, c), vol.spc)
  {
    if cs == [] {
      assert [c][1..] == [];
    } else {
      assert (cs + [c])[1..] == cs[1..] + [c];
      SectorsOfAppend(vol, cs[1..], c);
    }
  }

  /** The slots of the grown root directory: the old ones, then blank ones. */
  lemma GrownSlots(was: Bytes, now: Bytes, vol: Vol, added: Cluster, fb: Bytes, before: seq<nat>, more: seq<nat>)
    requires RootHeld(was, vol) && RootEnds(vol, Fat(was, vol)) && vol.kind.Fat32? && RootGrown(was, now, vol, added, fb)
    requires before == SectorsIn(was, vol, RootDir(vol)) && more == SectorsFrom(ClusterOff(vol, added), vol.spc)
    ensures SectorsInside(now, before + more) && Slots(now, before + more) == Slots(was, before) + Blank(SLOTS * vol.spc)
  {
    var z, o := Fill(ClusterBytes(vol), 0), ClusterOff(vol, added);
    InRunHolds(was, vol, fb, added, 1, z);
    LaidSlots(was, now, vol, fb, added, 1, z, RootDir(vol), before);
    SpliceInside(PutFats(was, vol, fb), o, z, o, o + ClusterBytes(vol));
    assert z[0..ClusterBytes(vol)] == z;
    ClearedSlots(now, o, vol.spc);
    SlotsJoined(now, before, more);
  }
}
