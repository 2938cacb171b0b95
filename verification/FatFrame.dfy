/**
 The writes of xtask/src/fat32_write.rs to the tables and to a directory slot, and what of a volume
 survives a change of the image: the boot sector's reading, the tables, the directory listings.
 */
module FatFrame {
  import opened Base
  import opened Words
  import opened DirSlots
  import opened FatTable
  import opened Disk
  import opened FatVolume

  // ---------------------------------------------------------------- both tables

  function Copies(vol: Vol, fb: Bytes): Bytes {
    if vol.numFats > 1 then fb + fb else fb
  }

  lemma CopiesEnd(img: Bytes, vol: Vol, fb: Bytes)
    requires Holds(img, vol) && |fb| == FatBytes(vol)
    ensures FatOff(vol) + |Copies(vol, fb)| == FatEnd(vol) <= |img|
  {
    HoldsTable(img, vol);
  }

  ghost function PutFats(img: Bytes, vol: Vol, fb: Bytes): (r: Bytes)
    requires Holds(img, vol) && |fb| == FatBytes(vol)
    ensures |r| == |img|
  {
    CopiesEnd(img, vol, fb);
    Splice(img, FatOff(vol), Copies(vol, fb))
  }

  method WriteFats(disk: Image, vol: Vol, fat: array<byte>)
    requires Holds(disk.img, vol) && fat.Length == FatBytes(vol)
    modifies disk
    ensures Holds(old(disk.img), vol) && disk.img == PutFats(old(disk.img), vol, fat[..])
  {
    HoldsTable(disk.img, vol);
    ghost var was := disk.img;
    disk.WriteAt(FatOff(vol), fat[..]);
    if vol.numFats > 1 {
      SpliceUp(was, FatOff(vol), fat[..], fat[..]);
      disk.WriteAt(FatOff(vol) + FatBytes(vol), fat[..]);
    }
  }

  /** The copies of the table agree. */
  ghost predicate Mirrored(img: Bytes, vol: Vol)
    requires Holds(img, vol)
  {
    HoldsTable(img, vol);
    vol.numFats == 2 ==>
      img[FatOff(vol) + FatBytes(vol)..FatEnd(vol)] == img[FatOff(vol)..FatOff(vol) + FatBytes(vol)]
  }

  lemma PutFatsRead(img: Bytes, vol: Vol, fb: Bytes)
    requires Holds(img, vol) && |fb| == FatBytes(vol)
    ensures Holds(PutFats(img, vol, fb), vol) && Mirrored(PutFats(img, vol, fb), vol)
    ensures Fat(PutFats(img, vol, fb), vol) == View(vol.kind, fb)
  {
    HoldsTable(img, vol);
    FatIs(PutFats(img, vol, fb), vol);
    var o, n := FatOff(vol), FatBytes(vol);
    SpliceInside(img, o, Copies(vol, fb), o, o + n);
    assert Copies(vol, fb)[..n] == fb;
    if vol.numFats == 2 {
      SpliceInside(img, o, Copies(vol, fb), o + n, FatEnd(vol));
      assert Copies(vol, fb)[n..n + n] == fb;
    }
  }

  /** The tables are read from their own bytes only. */
  lemma TablesKept(img: Bytes, now: Bytes, vol: Vol)
    requires Holds(img, vol) && |now| == |img| && FatEnd(vol) <= |img|
    requires now[FatOff(vol)..FatEnd(vol)] == img[FatOff(vol)..FatEnd(vol)]
    ensures Holds(now, vol) && Fat(now, vol) == Fat(img, vol) && (Mirrored(now, vol) <==> Mirrored(img, vol))
  {
    HoldsTable(img, vol);
    FatIs(img, vol);
    FatIs(now, vol);
    SameSlice(img, now, FatOff(vol), FatEnd(vol), FatOff(vol), FatOff(vol) + FatBytes(vol));
    if vol.numFats == 2 {
      SameSlice(img, now, FatOff(vol), FatEnd(vol), FatOff(vol) + FatBytes(vol), FatEnd(vol));
    }
  }

  lemma SameSlice(a: Bytes, b: Bytes, lo: nat, hi: nat, i: nat, j: nat)
    requires |a| == |b| && lo <= i <= j <= hi <= |a| && a[lo..hi] == b[lo..hi]
    ensures a[i..j] == b[i..j]
  {
    forall x | 0 <= x < j - i
      ensures a[i..j][x] == b[i..j][x]
    {
      assert a[lo..hi][i - lo + x] == b[lo..hi][i - lo + x];
    }
  }

  /** The volume is read from its boot sector only. */
  lemma ReadVolKept(img: Bytes, now: Bytes, lba: nat)
    requires |now| == |img| && lba * SECTOR + SECTOR <= |img|
    requires now[lba * SECTOR..lba * SECTOR + SECTOR] == img[lba * SECTOR..lba * SECTOR + SECTOR]
    ensures ReadVol(now, lba) == ReadVol(img, lba)
  {
    var b := lba * SECTOR;
    assert forall o :: b <= o < b + SECTOR ==> now[o] == now[b..b + SECTOR][o - b];
    assert forall o :: b <= o < b + SECTOR ==> img[o] == img[b..b + SECTOR][o - b];
    NumKept(img, now, b, b + 11, 2);
    NumKept(img, now, b, b + 14, 2);
    NumKept(img, now, b, b + 17, 2);
    NumKept(img, now, b, b + 22, 2);
    NumKept(img, now, b, b + 36, 4);
    NumKept(img, now, b, b + 44, 4);
  }

  lemma NumKept(img: Bytes, now: Bytes, b: nat, o: nat, w: nat)
    requires |now| == |img| && b + SECTOR <= |img| && b <= o && o + w <= b + SECTOR
    requires now[b..b + SECTOR] == img[b..b + SECTOR]
    ensures Num(now, o, w) == Num(img, o, w)
  {
    SameSlice(img, now, b, b + SECTOR, o, o + w);
  }

  // ---------------------------------------------------------------- a directory slot

  /** The first cluster and the size in the slot at `s`. */
  ghost function PutFields(img: Bytes, s: nat, cluster: nat, size: nat): (r: Bytes)
    requires s + SLOT <= |img|
    ensures |r| == |img|
  {
    Splice(Splice(img, s + 20, LE(cluster / 0x1_0000, 2)), s + 26, LE(cluster, 2) + LE(size, 4))
  }

  lemma SpliceNested(img: Bytes, sec: nat, buf: Bytes, o: nat, data: Bytes)
    requires sec + |buf| <= |img| && buf == img[sec..sec + |buf|] && o + |data| <= |buf|
    ensures Splice(img, sec, Splice(buf, o, data)) == Splice(img, sec + o, data)
  {
    var r, q := Splice(img, sec, Splice(buf, o, data)), Splice(img, sec + o, data);
    forall i | 0 <= i < |img|
      ensures r[i] == q[i]
    {
      SpliceIndex(img, sec, Splice(buf, o, data), i);
      SpliceIndex(img, sec + o, data, i);
      if sec <= i < sec + |buf| {
        SpliceIndex(buf, o, data, i - sec);
      }
    }
  }

  /** Two writes into a buffer written back as a whole. */
  lemma SpliceNestedTwice(img: Bytes, sec: nat, buf: Bytes, o: nat, a: Bytes, p: nat, b: Bytes)
    requires sec + |buf| <= |img| && buf == img[sec..sec + |buf|] && o + |a| <= |buf| && p + |b| <= |buf|
    ensures Splice(img, sec, Splice(Splice(buf, o, a), p, b)) == Splice(Splice(img, sec + o, a), sec + p, b)
  {
    var buf1 := Splice(buf, o, a);
    var img1 := Splice(img, sec, buf1);
    SpliceInside(img, sec, buf1, sec, sec + |buf|);
    assert buf1[0..|buf|] == buf1;
    SpliceNested(img, sec, buf, o, a);
    SpliceNested(img1, sec, buf1, p, b);
    SpliceOver(img, sec, buf1, Splice(buf1, p, b));
  }

  method WriteDirentClusterSize(disk: Image, sec: nat, ent: nat, cluster: nat, size: nat)
    requires sec + SECTOR <= |disk.img| && ent + SLOT <= SECTOR
    modifies disk
    ensures disk.img == PutFields(old(disk.img), sec + ent, cluster, size)
  {
    var buf := disk.ReadAt(sec, sec + SECTOR);
    var hi, lo := LE(cluster / 0x1_0000, 2), LE(cluster, 2) + LE(size, 4);
    SpliceNestedTwice(disk.img, sec, buf, ent + 20, hi, ent + 26, lo);
    SpliceIs(buf, ent + 20, hi);
    buf := buf[..ent + 20] + hi + buf[ent + 22..];
    SpliceIs(buf, ent + 26, lo);
    buf := buf[..ent + 26] + lo + buf[ent + 32..];
    disk.WriteAt(sec, buf);
  }

  /** The slot holds what was written, and every byte outside the two fields is as before. */
  lemma FieldsRead(img: Bytes, s: nat, cluster: nat, size: nat)
    requires s + SLOT <= |img| && cluster < 0x1_0000_0000 && size < 0x1_0000_0000
    ensures FirstCluster(PutFields(img, s, cluster, size), s) == cluster
    ensures FileSize(PutFields(img, s, cluster, size), s) == size
  {
    var hi, lo := LE(cluster / 0x1_0000, 2), LE(cluster, 2) + LE(size, 4);
    var mid := Splice(img, s + 20, hi);
    SpliceInside(img, s + 20, hi, s + 20, s + 22);
    SpliceApart(mid, s + 26, lo, s + 20, s + 22);
    SpliceInside(mid, s + 26, lo, s + 26, s + 28);
    SpliceInside(mid, s + 26, lo, s + 28, s + 32);
    assert hi[0..2] == hi && lo[0..2] == LE(cluster, 2) && lo[2..6] == LE(size, 4);
    ClusterHalves(cluster);
    LEMod(size, 4);
    ExpValues();
  }

  lemma FieldsApart(img: Bytes, s: nat, cluster: nat, size: nat, lo: nat, hi: nat)
    requires s + SLOT <= |img| && lo <= hi <= |img|
    requires hi <= s + 20 || s + 32 <= lo || (s + 22 <= lo && hi <= s + 26)
    ensures PutFields(img, s, cluster, size)[lo..hi] == img[lo..hi]
  {
    SpliceApart(img, s + 20, LE(cluster / 0x1_0000, 2), lo, hi);
    SpliceApart(Splice(img, s + 20, LE(cluster / 0x1_0000, 2)), s + 26, LE(cluster, 2) + LE(size, 4), lo, hi);
  }

  // ---------------------------------------------------------------- searches of a directory

  /** Name and attributes of a slot. */
  function Head(img: Bytes, s: nat): Bytes
    requires s + SLOT <= |img|
  {
    img[s..s + 12]
  }

  ghost predicate SameHead(img: Bytes, now: Bytes, s: nat) {
    s + SLOT <= |img| && s + SLOT <= |now| && Head(now, s) == Head(img, s)
  }

  lemma HeadDecides(img: Bytes, now: Bytes, s: nat, name: Name, wantDir: bool)
    requires SameHead(img, now, s)
    ensures now[s] == img[s] && (Matches(now, s, name, wantDir) <==> Matches(img, s, name, wantDir))
  {
    assert now[s] == Head(now, s)[0] && now[s + 11] == Head(now, s)[11];
    assert img[s] == Head(img, s)[0] && img[s + 11] == Head(img, s)[11];
    assert now[s..s + 11] == Head(now, s)[..11];
    assert img[s..s + 11] == Head(img, s)[..11];
  }

  /** A search depends only on the names and attributes. */
  lemma {:induction false} ScanKept(img: Bytes, now: Bytes, secs: seq<nat>, i: nat, name: Name, wantDir: bool)
    requires SectorsInside(img, secs) && SectorsInside(now, secs) && i <= SLOTS * |secs|
    requires forall j :: i <= j < SLOTS * |secs| ==> SameHead(img, now, SlotOff(secs, j))
    ensures Scan(now, secs, i, name, wantDir) == Scan(img, secs, i, name, wantDir)
    decreases SLOTS * |secs| - i
  {
    if i < SLOTS * |secs| {
      SlotInside(img, secs, i);
      HeadDecides(img, now, SlotOff(secs, i), name, wantDir);
      ScanKept(img, now, secs, i + 1, name, wantDir);
    }
  }

  lemma SlotModulo(a: nat, b: nat)
    requires a % SECTOR == 0
    ensures (a + b * SLOT) % SLOT == 0
  {
  }

  lemma SlotsApart(s: nat, r: nat)
    requires s % SLOT == 0 && r % SLOT == 0 && s != r
    ensures s + SLOT <= r || r + SLOT <= s
  {
  }
}
