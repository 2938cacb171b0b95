/**
 Writes of a root file (xtask/src/fat32_write.rs) that fail: write_root_file marks its clusters before it looks for a
 place in the root directory, and leaves them marked when there is none.
 */
module FatLeak {
  import opened Base
  import opened Words
  import opened DirSlots
  import opened FatTable
  import opened FatVolume
  import opened FatFiles
  import opened FatSlots
  import opened FatWrite

  /** The clusters are found, the root directory is full, and no cluster is left for it to grow. */
  ghost predicate LeaksAt(vol: Vol, t: Table, s: nat, n: nat) {
    FirstRun(t, s, n) && (vol.kind.Fat16? || NoRun(Marked(vol.kind, t, s, n), 1))
  }

  /** Before the call: a new file that is not empty, for which there is room, but not for its entry. */
  ghost predicate Leaks(was: Bytes, vol: Vol, name: Name, data: Bytes)
    requires RootReady(was, vol)
  {
    && RootEntry(was, vol, name) == None && data != [] && FirstFree(RootSlots(was, vol), None)
    && exists s :: LeaksAt(vol, Fat(was, vol), s, ClustersNeeded(|data|, ClusterBytes(vol)))
  }

  /** When a call fails, as a condition on the image before. */
  lemma FailsIff(was: Bytes, now: Bytes, vol: Vol, name: Name, data: Bytes, bad: Option<Error>, w: Write)
    requires Writable(was, vol, name, |data|) && WriteAnswer(was, now, vol, name, data, bad, w)
    ensures bad.Some? <==>
            match RootEntry(was, vol, name)
            case Some(f) => f.size != |data| || f.cluster < 2
            case None => data == [] || NoRun(Fat(was, vol), ClustersNeeded(|data|, ClusterBytes(vol))) || Leaks(was, vol, name, data)
  {
    if w.Fresh? {
      FreshLeaks(was, now, vol, name, data, bad, w);
    }
  }

  lemma FreshLeaks(was: Bytes, now: Bytes, vol: Vol, name: Name, data: Bytes, bad: Option<Error>, w: Write)
    requires Writable(was, vol, name, |data|) && WriteAnswer(was, now, vol, name, data, bad, w) && w.Fresh?
    ensures bad.Some? <==> Leaks(was, vol, name, data)
    ensures !NoRun(Fat(was, vol), ClustersNeeded(|data|, ClusterBytes(vol)))
    ensures bad.Some? ==> now == w.mid
  {
    var t, n := Fat(was, vol), ClustersNeeded(|data|, ClusterBytes(vol));
    StoredReady(was, w.mid, vol, data, w.start, w.fb);
    assert RunFree(t, w.start, n);
    assert bad.Some? <==> FirstFree(RootSlots(was, vol), None) && LeaksAt(vol, t, w.start, n);
    if Leaks(was, vol, name, data) {
      var s :| LeaksAt(vol, t, s, n);
      FirstRunOnce(t, s, w.start, n);
    }
  }

  lemma FirstRunOnce(t: Table, s: nat, r: nat, n: nat)
    requires FirstRun(t, s, n) && FirstRun(t, r, n)
    ensures s == r
  {
  }

  /** A call fails with the tables changed exactly in that case: the clusters stay marked without a file. */
  lemma FailureLeaks(was: Bytes, now: Bytes, vol: Vol, name: Name, data: Bytes, bad: Option<Error>, w: Write)
    requires Writable(was, vol, name, |data|) && WriteAnswer(was, now, vol, name, data, bad, w)
    ensures bad.Some? ==> Holds(now, vol)
    ensures bad.Some? && Fat(now, vol) != Fat(was, vol) <==> Leaks(was, vol, name, data)
    ensures Leaks(was, vol, name, data) ==>
              RootHeld(now, vol) && IsRun(vol.kind, Fat(now, vol), w.start, ClustersNeeded(|data|, ClusterBytes(vol)))
              && RootSlots(now, vol) == RootSlots(was, vol)
  {
    if w.Fresh? {
      FreshLeaks(was, now, vol, name, data, bad, w);
      StoredReady(was, w.mid, vol, data, w.start, w.fb);
      assert bad.Some? ==> Fat(now, vol)[w.start] != 0;
    }
  }

  // ---------------------------------------------------------------- one such volume

  /** The boot sector of a FAT16 volume with one table of one sector and one sector of root entries. */
  function BootByte(i: nat): byte {
    match i
    case 12 => 2
    case 13 => 1
    case 14 => 1
    case 16 => 1
    case 17 => 16
    case 22 => 1
    case 510 => 0x55
    case 511 => 0xaa
    case _ => 0
  }

  /** An empty table, a root directory full of entries in use, and 254 clusters. */
  function FullImage(): (img: Bytes)
    ensures |img| == 1536 + 254 * SECTOR
  {
    seq(1536 + 254 * SECTOR, (i: nat) => if i < 512 then BootByte(i) else if 1024 <= i < 1536 then 0x41 else 0)
  }

  const FULL: Vol := Vol(0, 1, 1, 1, 1, Fat16, 1024, 1, 1536)

  lemma Num2(img: Bytes, off: nat)
    requires off + 2 <= |img|
    ensures var lo: nat, hi: nat := img[off], img[off + 1]; Num(img, off, 2) == lo + 256 * hi
  {
    var b := img[off..off + 2];
    assert b[1..] == [img[off + 1]];
    assert b[1..][1..] == [];
    assert FromLE(b[1..]) == b[1..][0] + 256 * FromLE(b[1..][1..]);
  }

  lemma FullReads(img: Bytes)
    requires img == FullImage()
    ensures ReadVol(img, 0) == Ok(FULL)
  {
    Num2(img, 11);
    Num2(img, 14);
    Num2(img, 17);
    Num2(img, 22);
  }

  lemma FullTable(img: Bytes)
    requires img == FullImage()
    ensures Holds(img, FULL) && Fat(img, FULL) == seq(256, i => 0)
  {
    FatIs(img, FULL);
    var fb := img[512..1024];
    forall c: nat | c < 256
      ensures EntryAt(Fat16, fb, c) == 0
    {
      assert Offset(Fat16, c + 1) <= |fb|;
      assert fb[2 * c] == img[512 + 2 * c] && fb[2 * c + 1] == img[512 + 2 * c + 1];
      Num2(fb, 2 * c);
    }
  }

  lemma FullRoot(img: Bytes)
    requires img == FullImage()
    ensures RootReady(img, FULL) && |RootSlots(img, FULL)| == SLOTS
    ensures forall i :: 0 <= i < SLOTS ==> RootSlots(img, FULL)[i][0] == 0x41
  {
    FullTable(img);
    var secs := SectorsIn(img, FULL, RootDir(FULL));
    assert secs == [1024];
    forall i | 0 <= i < SLOTS
      ensures RootSlots(img, FULL)[i][0] == 0x41
    {
      assert RootSlots(img, FULL)[i] == SlotBytes(img, secs, i);
    }
  }

  /** Every write of a new file that fits the volume fails there with the table changed. */
  lemma FullLeaks(img: Bytes, now: Bytes, name: Name, data: Bytes, bad: Option<Error>, w: Write)
    requires img == FullImage() && name[0] != 0x41 && 0 < |data| <= 254 * SECTOR
    ensures ReadVol(img, 0) == Ok(FULL) && Writable(img, FULL, name, |data|)
    ensures WriteAnswer(img, now, FULL, name, data, bad, w) ==>
              bad == Some(DirectoryFull) && Holds(now, FULL) && Fat(now, FULL) != Fat(img, FULL)
  {
    FullReads(img);
    FullTable(img);
    FullRoot(img);
    NotThere(img, name);
    var n := ClustersNeeded(|data|, SECTOR);
    assert FirstRun(Fat(img, FULL), 2, n);
    assert LeaksAt(FULL, Fat(img, FULL), 2, n);
    assert Leaks(img, FULL, name, data);
    if WriteAnswer(img, now, FULL, name, data, bad, w) {
      FailureLeaks(img, now, FULL, name, data, bad, w);
    }
  }

  lemma NotThere(img: Bytes, name: Name)
    requires RootHeld(img, FULL) && |RootSlots(img, FULL)| == SLOTS && name[0] != 0x41
    requires forall i :: 0 <= i < SLOTS ==> RootSlots(img, FULL)[i][0] == 0x41
    ensures RootEntry(img, FULL, name) == None
  {
    var slots := RootSlots(img, FULL);
    LookupIsSearch(img, SectorsIn(img, FULL, RootDir(FULL)), name, false);
    forall i | 0 <= i < SLOTS
      ensures !Fits(slots[i], name, false)
    {
      assert slots[i][..11][0] == 0x41;
    }
  }
}
