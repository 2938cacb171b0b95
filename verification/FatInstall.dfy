/**
 A new entry in the root directory (install_dir_entry and grow_fat32_root of
 xtask/src/fat32_write.rs): into the first free slot, after giving a full FAT32 root one more cluster.
 */
module FatInstall {
  import opened Base
  import opened DirSlots
  import opened FatTable
  import opened Disk
  import opened FatVolume
  import opened FatFiles
  import opened FatFrame
  import opened FatSlots
  import opened FatGrow

  // ---------------------------------------------------------------- one slot

  /** The image with a new entry in the slot at `s`; some old bytes of the slot stay. */
  ghost function PutNew(img: Bytes, s: nat, name: Name, cluster: nat, size: nat): (r: Bytes)
    requires s + SLOT <= |img|
    ensures |r| == |img|
  {
    Splice(img, s, NewSlot(img[s..s + SLOT], name, cluster, size))
  }

  method InstallAt(disk: Image, sec: nat, ent: nat, name: Name, cluster: nat, size: nat)
    requires sec + SECTOR <= |disk.img| && ent + SLOT <= SECTOR
    modifies disk
    ensures disk.img == PutNew(old(disk.img), sec + ent, name, cluster, size)
  {
    var buf := disk.ReadAt(sec, sec + SECTOR);
    var e := NewSlot(buf[ent..ent + SLOT], name, cluster, size);
    assert buf[ent..ent + SLOT] == disk.img[sec + ent..sec + ent + SLOT];
    SpliceNested(disk.img, sec, buf, ent, e);
    SpliceIs(buf, ent, e);
    buf := buf[..ent] + e + buf[ent + SLOT..];
    disk.WriteAt(sec, buf);
  }

  method FindFree(disk: Image, secs: seq<nat>) returns (r: Option<nat>)
    requires SectorsInside(disk.img, secs)
    ensures FirstFree(Slots(disk.img, secs), r)
  {
    ghost var slots := Slots(disk.img, secs);
    for j := 0 to |secs|
      invariant forall i :: 0 <= i < SLOTS * j ==> !FreeSlot(slots[i])
    {
      r := FindFreeInSector(disk, secs, j);
      if r.Some? {
        return;
      }
    }
    r := None;
  }

  method FindFreeInSector(disk: Image, secs: seq<nat>, j: nat) returns (r: Option<nat>)
    requires SectorsInside(disk.img, secs) && j < |secs|
    requires forall i :: 0 <= i < SLOTS * j ==> !FreeSlot(Slots(disk.img, secs)[i])
    ensures r.Some? ==> FirstFree(Slots(disk.img, secs), r)
    ensures r.None? ==> forall i :: 0 <= i < SLOTS * (j + 1) ==> !FreeSlot(Slots(disk.img, secs)[i])
  {
    ghost var slots := Slots(disk.img, secs);
    for i := 0 to SLOTS
      invariant forall x :: 0 <= x < SLOTS * j + i ==> !FreeSlot(slots[x])
    {
      SlotAt(secs, j, i);
      SlotInside(disk.img, secs, SLOTS * j + i);
      assert slots[SLOTS * j + i][0] == disk.img[secs[j] + i * SLOT];
      var first := disk.img[secs[j] + i * SLOT];
      if first == 0 || first == 0xe5 {
        return Some(SLOTS * j + i);
      }
    }
    r := None;
  }

  // ---------------------------------------------------------------- the end of a chain

  /** The listing of a directory is not cut: its last cluster ends the chain. */
  predicate EndedFrom(vol: Vol, t: Table, c: nat, have: nat)
    requires vol.spc > 0
    decreases SECTOR_LIMIT + vol.spc - have
  {
    && 2 <= c < |t| && have + vol.spc <= SECTOR_LIMIT
    && (t[c] < 2 || IsEoc(vol.kind, t[c]) || EndedFrom(vol, t, t[c], have + vol.spc))
  }

  function Last(vol: Vol, t: Table, c: nat, have: nat): (l: nat)
    requires vol.spc > 0 && EndedFrom(vol, t, c, have)
    ensures 2 <= l < |t| && (t[l] < 2 || IsEoc(vol.kind, t[l]))
    decreases SECTOR_LIMIT + vol.spc - have
  {
    if t[c] < 2 || IsEoc(vol.kind, t[c]) then c else Last(vol, t, t[c], have + vol.spc)
  }

  lemma LastStep(vol: Vol, t: Table, c: nat, have: nat)
    requires vol.spc > 0 && EndedFrom(vol, t, c, have)
    ensures c < |t| && have + vol.spc <= SECTOR_LIMIT
    ensures if t[c] < 2 || IsEoc(vol.kind, t[c]) then Last(vol, t, c, have) == c
            else EndedFrom(vol, t, t[c], have + vol.spc) && Last(vol, t, c, have) == Last(vol, t, t[c], have + vol.spc)
  {
  }

  method ChainLast(vol: Vol, fat: array<byte>, start: nat) returns (c: nat)
    requires vol.spc > 0 && EndedFrom(vol, View(vol.kind, fat[..]), start, 0)
    ensures c == Last(vol, View(vol.kind, fat[..]), start, 0)
  {
    ghost var t := View(vol.kind, fat[..]);
    c := start;
    ghost var have := 0;
    while true
      invariant EndedFrom(vol, t, c, have) == true && Last(vol, t, start, 0) == Last(vol, t, c, have)
      decreases SECTOR_LIMIT + vol.spc - have
    {
      LastStep(vol, t, c, have);
      var next := FatEntry(vol.kind, fat, c);
      if next < 2 || IsEoc(vol.kind, next) {
        return;
      }
      c := next;
      have := have + vol.spc;
    }
  }

  lemma {:induction false} LastListed(vol: Vol, t: Table, c: nat, have: nat)
    requires vol.spc > 0 && EndedFrom(vol, t, c, have)
    ensures Last(vol, t, c, have) in DirClusters(vol, t, c, have)
    decreases SECTOR_LIMIT + vol.spc - have
  {
    DirClustersStep(vol, t, c, have);
    if !(t[c] < 2 || IsEoc(vol.kind, t[c])) {
      LastListed(vol, t, t[c], have + vol.spc);
    }
  }

  /** The table with one more cluster at the end of a chain. */
  function Appended(k: Kind, t: Table, last: nat, added: nat): (u: Table)
    requires last < |t| && added < |t|
    ensures |u| == |t|
  {
    Marked(k, t, added, 1)[last := added]
  }

  /** The chain from `c` gains the new cluster at its end. */
  lemma {:induction false} AppendedChain(vol: Vol, t: Table, c: nat, have: nat, last: nat, added: Cluster, u: Table)
    requires vol.spc > 0 && Numbered(vol.kind, t) && EndedFrom(vol, t, c, have) && last == Last(vol, t, c, have)
    requires added < |t| && t[added] == 0 && u == Appended(vol.kind, t, last, added)
    requires forall x :: x in DirClusters(vol, t, c, have) ==> InUse(vol.kind, t, x)
    ensures DirClusters(vol, u, c, have) == DirClusters(vol, t, c, have) + [added]
    decreases SECTOR_LIMIT + vol.spc - have
  {
    DirClustersStep(vol, t, c, have);
    DirClustersStep(vol, u, c, have);
    var have' := have + vol.spc;
    if c == last {
      assert DirClusters(vol, u, added, have') == [added] + DirClusters(vol, u, u[added], have' + vol.spc);
    } else {
      assert InUse(vol.kind, t, c);
      forall x | x in DirClusters(vol, t, t[c], have')
        ensures InUse(vol.kind, t, x)
      {
      }
      AppendedChain(vol, t, t[c], have', last, added, u);
    }
  }

  // ---------------------------------------------------------------- one more cluster for the root directory

  ghost predicate RootEnds(vol: Vol, t: Table)
    requires Geometry(vol)
  {
    vol.kind.Fat32? ==> EndedFrom(vol, t, RootCluster(vol), 0)
  }

  /** A blank cluster appended to the chain of the root directory. */
  ghost predicate RootGrown(was: Bytes, now: Bytes, vol: Vol, added: Cluster, fb: Bytes)
    requires RootHeld(was, vol) && RootEnds(vol, Fat(was, vol)) && vol.kind.Fat32?
  {
    var t := Fat(was, vol);
    && FirstRun(t, added, 1) && |fb| == FatBytes(vol)
    && View(vol.kind, fb) == Appended(vol.kind, t, Last(vol, t, RootCluster(vol), 0), added)
    && ClusterOff(vol, added) + ClusterBytes(vol) <= |was|
    && now == Laid(was, vol, fb, added, Fill(ClusterBytes(vol), 0))
  }

  method AppendCluster(k: Kind, fat: array<byte>, last: nat, added: Cluster)
    requires last < Count(k, fat[..]) && added < Count(k, fat[..]) && Numbered(k, View(k, fat[..]))
    modifies fat
    ensures View(k, fat[..]) == Appended(k, View(k, old(fat[..])), last, added)
  {
    MarkRun(k, fat, added, 1);
    SetFat(k, fat, last, added);
  }

  method GrowFat32Root(disk: Image, vol: Vol, fat: array<byte>) returns (r: Option<nat>)
    requires RootHeld(disk.img, vol) && RootEnds(vol, Fat(disk.img, vol)) && vol.kind.Fat32? && Loaded(disk.img, vol, fat)
    modifies disk, fat
    ensures r.None? ==> NoRun(old(Fat(disk.img, vol)), 1) && disk.img == old(disk.img)
    ensures r.Some? ==> r.value >= 2 && RootGrown(old(disk.img), disk.img, vol, r.value, fat[..])
  {
    ghost var was, t := disk.img, Fat(disk.img, vol);
    var last := ChainLast(vol, fat, RootCluster(vol));
    r := FindRun(vol.kind, fat, 1);
    if r.None? {
      return;
    }
    RunRoom(was, vol, r.value, 1, ClusterBytes(vol));
    AppendCluster(vol.kind, fat, last, r.value);
    WriteFats(disk, vol, fat);
    disk.WriteFill(ClusterOff(vol, r.value), ClusterBytes(vol), 0);
  }
}
