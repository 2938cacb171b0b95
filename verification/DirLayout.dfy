/**
 Allocation tables, directories and their slots written down from their parts (Microsoft FAT32 File System Specification
 1.03, sections "FAT Data Structure", "FAT Directory Structure" and "FAT Long Directory Entries"), and what
 xtask/src/fat32_write.rs reads of them.
 */
module DirLayout {
  import opened Base
  import opened Words
  import opened Utf16
  import opened DirSlots
  import opened FatTable
  import opened FatVolume
  import opened FatSlots
  import opened FatFiles
  import opened FatLayout
  import opened LongNames
  import FatTree

  // ---------------------------------------------------------------- the table

  /** The bytes of an entry: two for FAT16, four for FAT32. */
  function EntryBytes(k: Kind, words: seq<nat>): (parts: seq<Bytes>)
    ensures |parts| == |words|
    ensures forall i :: 0 <= i < |words| ==> parts[i] == LE(words[i], if k == Fat16 then 2 else 4)
  {
    seq(|words|, (i: nat) requires i < |words| => LE(words[i], if k == Fat16 then 2 else 4))
  }

  lemma EntryThere(k: Kind, words: seq<nat>, parts: seq<Bytes>, c: nat, w: nat)
    requires parts == EntryBytes(k, words) && w == (if k == Fat16 then 2 else 4) && c < |words|
    ensures |Join(parts)| == w * |words| && Lies(Join(parts), w * c, LE(words[c], w))
  {
    JoinLength(parts);
    EvenParts(parts, w, |words|);
    EvenParts(parts, w, c);
    PartAt(parts, c);
  }

  /** Entry `c` of the table is word `c`; FAT32 leaves its top four bits out. */
  lemma TableReads(k: Kind, words: seq<nat>, buf: Bytes, c: nat)
    requires buf == Join(EntryBytes(k, words)) && c < |words| && words[c] < if k == Fat16 then 0x1_0000 else 0x1_0000_0000
    ensures |View(k, buf)| == |words|
    ensures View(k, buf)[c] == words[c] % if k == Fat16 then 0x1_0000 else 0x1000_0000
  {
    var w: nat := if k == Fat16 then 2 else 4;
    EntryThere(k, words, EntryBytes(k, words), c, w);
    ExpValues();
    LERoundTrip(words[c], w);
    EntryIs(k, buf, c, w, words[c]);
  }

  lemma EntryIs(k: Kind, buf: Bytes, c: nat, w: nat, word: nat)
    requires w == (if k == Fat16 then 2 else 4) && Lies(buf, w * c, LE(word, w)) && FromLE(LE(word, w)) == word
    requires c < |buf| / w
    ensures View(k, buf)[c] == word % if k == Fat16 then 0x1_0000 else 0x1000_0000
  {
    assert Offset(k, c + 1) == Offset(k, c) + w;
  }

  /** A chain is ended by the last eight values an entry can have, and is written with the last. */
  lemma ChainEnds(k: Kind, e: nat)
    requires e < if k == Fat16 then 0x1_0000 else 0x1000_0000
    ensures IsEoc(k, e) <==> e + 8 >= if k == Fat16 then 0x1_0000 else 0x1000_0000
    ensures EocValue(k) + 1 == if k == Fat16 then 0x1_0000 else 0x1000_0000
  {
  }

  // ---------------------------------------------------------------- slots

  /** The attribute byte of a slot, from its lowest bit on. */
  datatype Attributes = Attributes(readOnly: bool, hidden: bool, system: bool, volume: bool, directory: bool, archive: bool,
                                   device: bool, unused: bool)

  function Bit(b: bool): nat {
    if b then 1 else 0
  }

  function AttributeByte(a: Attributes): byte {
    Bit(a.readOnly) + 2 * Bit(a.hidden) + 4 * Bit(a.system) + 8 * Bit(a.volume) + 16 * Bit(a.directory)
    + 32 * Bit(a.archive) + 64 * Bit(a.device) + 128 * Bit(a.unused)
  }

  /** A slot: the name, the attributes, eight bytes not read, the high half of the cluster, four bytes not read, the low
      half, the size. */
  function SlotOf(name: Name, a: Attributes, made: Bytes, cluster: nat, written: Bytes, size: nat): Bytes {
    name + [AttributeByte(a)] + made + LE(cluster / 0x1_0000, 2) + written + LE(cluster, 2) + LE(size, 4)
  }

  lemma AttributesRead(a: Attributes)
    ensures Labelled(AttributeByte(a)) == a.volume && IsDir(AttributeByte(a)) == a.directory
    ensures AttributeByte(a) % 16 == 15 <==> a.readOnly && a.hidden && a.system && a.volume
  {
    var low := Bit(a.readOnly) + 2 * Bit(a.hidden) + 4 * Bit(a.system);
    var high := Bit(a.archive) + 2 * Bit(a.device) + 4 * Bit(a.unused);
    BitsApart(AttributeByte(a), low, Bit(a.volume), Bit(a.directory), high);
  }

  lemma BitsApart(n: nat, low: nat, x: nat, y: nat, high: nat)
    requires n == low + 8 * x + 16 * y + 32 * high && low < 8 && x < 2 && y < 2
    ensures n / 8 % 2 == x && n / 16 % 2 == y && n % 16 == low + 8 * x
  {
    DividesBy(n, 8, x + 2 * y + 4 * high, low);
    DividesBy(n, 16, y + 2 * high, low + 8 * x);
  }

  lemma DividesBy(n: nat, d: nat, q: nat, r: nat)
    requires (d == 8 || d == 16) && n == d * q + r && r < d
    ensures n / d == q && n % d == r
  {
  }

  /** What is read of a slot given by its fields; a label and a part of a long name fit no name. */
  lemma SlotReads(e: Slot, name: Name, a: Attributes, made: Bytes, cluster: nat, written: Bytes, size: nat, wanted: Name, dir: bool)
    requires |made| == 8 && |written| == 4 && cluster < 0x1_0000_0000 && size < 0x1_0000_0000
    requires e == SlotOf(name, a, made, cluster, written, size)
    ensures FirstCluster(e, 0) == cluster && FileSize(e, 0) == size
    ensures Fits(e, wanted, dir) <==> name == wanted && name[0] != 0xe5 && !a.volume && a.directory == dir
    ensures FreeSlot(e) <==> name[0] == 0 || name[0] == 0xe5
  {
    assert e[..11] == name && e[11] == AttributeByte(a) && e[0] == name[0];
    assert e[20..22] == LE(cluster / 0x1_0000, 2);
    assert e[26..28] == LE(cluster, 2);
    assert e[28..32] == LE(size, 4);
    FieldsOf(e, cluster, size);
    AttributesRead(a);
  }

  const PLAIN_FILE: Attributes := Attributes(false, false, false, false, false, true, false, false)
  const PLAIN_FOLDER: Attributes := Attributes(false, false, false, false, true, false, false, false)

  /** New files get the archive bit and no other, new folders that of a directory; a file of the root directory leaves the
      bytes that are not read as they were in the slot, any other entry clears them. */
  lemma EntriesWritten(was: Slot, name: Name, cluster: nat, size: nat)
    ensures NewSlot(was, name, cluster, size) == SlotOf(name, PLAIN_FILE, was[12..20], cluster, was[22..26], size)
    ensures EntrySlot(name, FatTree.FILE_ATTR, cluster, size) == SlotOf(name, PLAIN_FILE, Zeros(8), cluster, Zeros(4), size)
    ensures EntrySlot(name, FatTree.DIR_ATTR, cluster, size) == SlotOf(name, PLAIN_FOLDER, Zeros(8), cluster, Zeros(4), size)
  {
  }

  // ---------------------------------------------------------------- the parts of a long name

  /** The number of a part, with the mark of the last one. */
  function Ordinal(num: nat, last: bool): nat {
    if last then num + 0x40 else num
  }

  /** A part of a long name byte by byte: its number, five units, the attributes and a zero, the checksum, six units, two
      zeros, two units. */
  function PartBytes(num: nat, last: bool, chk: byte, c: Long): (b: Bytes)
    requires |c| == 13 && num < 0x40
    ensures |b| == 32
  {
    EncodeLength(c[..5]);
    EncodeLength(c[5..11]);
    EncodeLength(c[11..]);
    [Ordinal(num, last)] + Encode(c[..5]) + [0x0f, 0, chk] + Encode(c[5..11]) + [0, 0] + Encode(c[11..])
  }

  lemma {:induction false} EncodedAt(c: Long, j: nat)
    requires j < |c|
    ensures |Encode(c)| == 2 * |c| && Encode(c)[2 * j] == (c[j] as int) % 256 && Encode(c)[2 * j + 1] == (c[j] as int) / 256
  {
    EncodeLength(c);
    if j > 0 {
      EncodedAt(c[1..], j - 1);
      assert Encode(c)[2 * j] == Encode(c[1..])[2 * (j - 1)] && Encode(c)[2 * j + 1] == Encode(c[1..])[2 * (j - 1) + 1];
    } else {
      var u: nat := c[0];
      assert LE(u, 2) == [u % 256, u / 256];
    }
  }

  predicate UnitThere(e: Bytes, c: Long, j: nat)
    requires |e| == 32 && |c| == 13 && j < 13
  {
    e[UnitOff(j)] == (c[j] as int) % 256 && e[UnitOff(j) + 1] == (c[j] as int) / 256
  }

  lemma UnitsThere(b: Bytes, num: nat, last: bool, chk: byte, c: Long, j: nat)
    requires |c| == 13 && num < 0x40 && b == PartBytes(num, last, chk, c) && j < 13
    ensures UnitThere(b, c, j)
  {
    PartPieces(b, num, last, chk, c);
    if j < 5 {
      EncodedAt(c[..5], j);
      PairThere(b, 1, Encode(c[..5]), 2 * j, c, j);
    } else if j < 11 {
      EncodedAt(c[5..11], j - 5);
      PairThere(b, 14, Encode(c[5..11]), 2 * (j - 5), c, j);
    } else {
      EncodedAt(c[11..], j - 11);
      PairThere(b, 28, Encode(c[11..]), 2 * (j - 11), c, j);
    }
  }

  lemma PartPieces(b: Bytes, num: nat, last: bool, chk: byte, c: Long)
    requires |c| == 13 && num < 0x40 && b == PartBytes(num, last, chk, c)
    ensures Lies(b, 1, Encode(c[..5])) && Lies(b, 14, Encode(c[5..11])) && Lies(b, 28, Encode(c[11..]))
  {
    EncodeLength(c[..5]);
    EncodeLength(c[5..11]);
    EncodeLength(c[11..]);
    Pieces([Ordinal(num, last)], Encode(c[..5]), [0x0f, 0, chk], Encode(c[5..11]), [0, 0], Encode(c[11..]));
  }

  lemma Pieces(h: Bytes, x: Bytes, m: Bytes, y: Bytes, n: Bytes, z: Bytes)
    requires |h| == 1 && |x| == 10 && |m| == 3 && |y| == 12 && |n| == 2 && |z| == 4
    ensures var b := h + x + m + y + n + z; Lies(b, 1, x) && Lies(b, 14, y) && Lies(b, 28, z)
  {
  }

  lemma PairThere(b: Bytes, o: nat, part: Bytes, k: nat, c: Long, j: nat)
    requires |b| == 32 && |c| == 13 && j < 13 && Lies(b, o, part) && k + 1 < |part| && UnitOff(j) == o + k
    requires part[k] == (c[j] as int) % 256 && part[k + 1] == (c[j] as int) / 256
    ensures UnitThere(b, c, j)
  {
    ByteInside(b, o, part, k);
    ByteInside(b, o, part, k + 1);
  }

  lemma ByteInside(b: Bytes, o: nat, part: Bytes, k: nat)
    requires Lies(b, o, part) && k < |part|
    ensures b[o + k] == part[k]
  {
    assert b[o..o + |part|][k] == b[o + k];
  }

  lemma UnitsIff(e: Slot, c: Long)
    requires |c| == 13
    ensures LfnUnits(e) == c <==> forall j :: 0 <= j < 13 ==> UnitThere(e, c, j)
  {
    if forall j :: 0 <= j < 13 ==> UnitThere(e, c, j) {
      forall j: nat | j < 13
        ensures LfnUnits(e)[j] == c[j]
      {
        assert UnitThere(e, c, j);
      }
      assert LfnUnits(e) == c;
    }
    if LfnUnits(e) == c {
      forall j: nat | j < 13
        ensures UnitThere(e, c, j)
      {
        assert LfnUnits(e)[j] == UnitAt(e, j);
      }
    }
  }

  /** Two slots with the same units and the same other bytes are the same. */
  lemma SameBytes(a: Slot, b: Slot, c: Long, i: nat)
    requires |c| == 13 && i < 32 && forall j :: 0 <= j < 13 ==> UnitThere(a, c, j) && UnitThere(b, c, j)
    requires forall k :: k in {0, 11, 12, 13, 26, 27} ==> a[k] == b[k]
    ensures a[i] == b[i]
  {
    if 1 <= i < 11 {
      assert UnitThere(a, c, (i - 1) / 2) && UnitThere(b, c, (i - 1) / 2);
    } else if 14 <= i < 26 {
      assert UnitThere(a, c, (i - 4) / 2) && UnitThere(b, c, (i - 4) / 2);
    } else if 28 <= i {
      assert UnitThere(a, c, (i - 6) / 2) && UnitThere(b, c, (i - 6) / 2);
    }
  }

  lemma OtherBytes(b: Bytes, num: nat, last: bool, chk: byte, c: Long)
    requires |c| == 13 && num < 0x40 && b == PartBytes(num, last, chk, c)
    ensures b[0] == NumByte(num, last) && b[11] == 0x0f && b[12] == 0 && b[13] == chk && b[26] == 0 && b[27] == 0
  {
    EncodeLength(c[..5]);
    EncodeLength(c[5..11]);
    EncodeLength(c[11..]);
  }

  /** Every byte of a part that is written. */
  lemma PartLayout(e: Slot, num: byte, last: bool, chk: byte, c: Long)
    requires |c| == 13 && num < 0x40
    ensures IsPart(e, num, last, chk, c) <==> e == PartBytes(num, last, chk, c)
  {
    var b := PartBytes(num, last, chk, c);
    OtherBytes(b, num, last, chk, c);
    forall j | 0 <= j < 13
      ensures UnitThere(b, c, j)
    {
      UnitsThere(b, num, last, chk, c, j);
    }
    UnitsIff(b, c);
    UnitsIff(e, c);
    if IsPart(e, num, last, chk, c) {
      forall i: nat | i < 32
        ensures e[i] == b[i]
      {
        SameBytes(e, b, c, i);
      }
      assert e == b;
    }
  }

  // ---------------------------------------------------------------- the bytes of a directory

  /** How many clusters of a chain are listed: the last one is the one with which more than 65536 sectors are reached. */
  function ListedClusters(spc: nat): nat
    requires spc > 0
  {
    65536 / spc + 1
  }

  lemma {:induction false} DirClustersWalk(vol: Vol, t: Table, c: nat, j: nat, more: nat)
    requires vol.spc > 0 && j + more == ListedClusters(vol.spc)
    ensures DirClusters(vol, t, c, j * vol.spc) == Walk(vol.kind, t, c, more)
    decreases more
  {
    PastLimit(vol.spc, j);
    if more > 0 && 2 <= c < |t| {
      DirClustersWalk(vol, t, t[c], j + 1, more - 1);
      assert (j + 1) * vol.spc == j * vol.spc + vol.spc;
    }
  }

  lemma PastLimit(spc: nat, j: nat)
    requires spc > 0
    ensures j * spc > 65536 <==> j > 65536 / spc
  {
    var q := 65536 / spc;
    assert q * spc <= 65536 < (q + 1) * spc;
    if j > q {
      MulMono(q + 1, j, spc);
    } else {
      MulMono(j, q, spc);
    }
  }

  ghost function DirBytes(img: Bytes, vol: Vol, d: Dir): Bytes
    requires DirHeld(img, vol, d)
  {
    match d
    case FixedRoot => HoldsTable(img, vol); img[vol.rootOff..vol.dataStart]
    case At(c) => Gather(img, vol, Walk(vol.kind, Fat(img, vol), c, ListedClusters(vol.spc)))
  }

  /** The bytes are those of the sectors, in their order. */
  predicate InSectors(img: Bytes, bytes: Bytes, secs: seq<nat>) {
    |bytes| == 512 * |secs| && forall j :: 0 <= j < |secs| ==> SectorIn(img, bytes, j, secs[j])
  }

  predicate SectorIn(img: Bytes, bytes: Bytes, j: nat, o: nat) {
    o + 512 <= |img| && Lies(bytes, 512 * j, img[o..o + 512])
  }

  lemma SectorsInRow(img: Bytes, o: nat, n: nat)
    requires o + 512 * n <= |img|
    ensures InSectors(img, img[o..o + 512 * n], SectorsFrom(o, n))
  {
    forall j: nat | j < n
      ensures SectorIn(img, img[o..o + 512 * n], j, o + j * 512)
    {
      SliceOfSlice(img, o, o + 512 * n, 512 * j, 512 * j + 512);
    }
  }

  lemma SectorsJoined(img: Bytes, a: Bytes, x: seq<nat>, b: Bytes, y: seq<nat>)
    requires InSectors(img, a, x) && InSectors(img, b, y)
    ensures InSectors(img, a + b, x + y)
  {
    forall j | 0 <= j < |x + y|
      ensures SectorIn(img, a + b, j, (x + y)[j])
    {
      if j < |x| {
        assert SectorIn(img, a, j, x[j]);
        LiesFirst(a, b, 512 * j, img[x[j]..x[j] + 512]);
      } else {
        var o := y[j - |x|];
        assert SectorIn(img, b, j - |x|, o);
        LiesAfter(a, b, 512 * (j - |x|), img[o..o + 512]);
      }
    }
  }

  lemma LiesFirst(a: Bytes, b: Bytes, o: nat, part: Bytes)
    requires Lies(a, o, part)
    ensures Lies(a + b, o, part)
  {
    assert (a + b)[o..o + |part|] == a[o..o + |part|];
  }

  lemma {:induction false} ChainInSectors(img: Bytes, vol: Vol, cs: seq<Cluster>)
    requires Holds(img, vol) && (forall i :: 0 <= i < |cs| ==> cs[i] < Entries(vol))
    ensures InSectors(img, Gather(img, vol, cs), SectorsOf(vol, cs))
  {
    if cs != [] {
      var o := ClusterOff(vol, cs[0]);
      RunRoom(img, vol, cs[0], 1, 0);
      RunBytes(vol, cs[0], 1);
      assert ClusterOff(vol, cs[0] + 1) == o + 512 * vol.spc;
      SectorsInRow(img, o, vol.spc);
      ChainInSectors(img, vol, cs[1..]);
      SectorsJoined(img, img[o..o + 512 * vol.spc], SectorsFrom(o, vol.spc), Gather(img, vol, cs[1..]), SectorsOf(vol, cs[1..]));
    }
  }

  lemma DirInSectors(img: Bytes, vol: Vol, d: Dir)
    requires DirHeld(img, vol, d)
    ensures InSectors(img, DirBytes(img, vol, d), SectorsIn(img, vol, d))
  {
    match d
    case FixedRoot =>
      HoldsTable(img, vol);
      SectorsInRow(img, vol.rootOff, vol.rootSectors);
    case At(c) =>
      DirClustersWalk(vol, Fat(img, vol), c, 0, ListedClusters(vol.spc));
      ChainInSectors(img, vol, DirClusters(vol, Fat(img, vol), c, 0));
  }

  /** The slots of a directory are its bytes, cut every 32: those of the fixed root directory, or those along its chain. */
  lemma SlotsAreBytes(img: Bytes, vol: Vol, d: Dir, i: nat)
    requires DirHeld(img, vol, d)
    ensures var slots := Slots(img, SectorsIn(img, vol, d));
            && |DirBytes(img, vol, d)| == 32 * |slots|
            && (i < |slots| ==> Lies(DirBytes(img, vol, d), 32 * i, slots[i]))
  {
    var secs := SectorsIn(img, vol, d);
    DirInSectors(img, vol, d);
    if i < 16 * |secs| {
      var j, r := i / 16, i % 16;
      assert i == 16 * j + r;
      SlotThere(img, vol, d, secs, j, r);
    }
  }

  lemma SlotThere(img: Bytes, vol: Vol, d: Dir, secs: seq<nat>, j: nat, r: nat)
    requires DirHeld(img, vol, d) && secs == SectorsIn(img, vol, d) && InSectors(img, DirBytes(img, vol, d), secs)
    requires j < |secs| && r < 16
    ensures 16 * j + r < |Slots(img, secs)|
    ensures Lies(DirBytes(img, vol, d), 32 * (16 * j + r), Slots(img, secs)[16 * j + r])
  {
    SlotAt(secs, j, r);
    SlotInSector(img, DirBytes(img, vol, d), secs, j, r);
  }

  lemma SlotInSector(img: Bytes, bytes: Bytes, secs: seq<nat>, j: nat, r: nat)
    requires InSectors(img, bytes, secs) && j < |secs| && r < 16
    ensures secs[j] + r * 32 + 32 <= |img|
    ensures Lies(bytes, 32 * (16 * j + r), img[secs[j] + r * 32..secs[j] + r * 32 + 32])
  {
    var o := secs[j];
    assert SectorIn(img, bytes, j, o);
    SliceOfSlice(img, o, o + 512, r * 32, r * 32 + 32);
    LiesIn(bytes, 512 * j, img[o..o + 512], r * 32, img[o + r * 32..o + r * 32 + 32]);
  }

  lemma SlotsWritten(img: Bytes, vol: Vol, d: Dir, slots: seq<Slot>)
    requires DirHeld(img, vol, d) && DirBytes(img, vol, d) == Join(slots)
    ensures Slots(img, SectorsIn(img, vol, d)) == slots
  {
    var have := Slots(img, SectorsIn(img, vol, d));
    SlotsAreBytes(img, vol, d, 0);
    JoinLength(slots);
    EvenParts(slots, 32, |slots|);
    forall i: nat | i < |slots|
      ensures have[i] == slots[i]
    {
      SlotsAreBytes(img, vol, d, i);
      EvenParts(slots, 32, i);
      PartAt(slots, i);
    }
  }

  /** The bytes of the root directory are these slots. */
  ghost predicate RootWritten(img: Bytes, v: Vol, root: seq<Slot>) {
    RootHeld(img, v) && DirBytes(img, v, RootDir(v)) == Join(root)
  }

  /** Slot `k` is the first that fits, and no slot up to it is an end mark. */
  predicate FirstFit(root: seq<Slot>, k: nat, name: Name) {
    && k < |root| && (forall i :: 0 <= i < k ==> root[i][0] != 0 && !Fits(root[i], name, false))
    && root[k][0] != 0 && Fits(root[k], name, false)
  }

  /** A cluster begins at byte `o` of the clusters. */
  predicate BeginsAt(spc: nat, cluster: nat, o: nat) {
    cluster >= 2 && o == (cluster - 2) * (512 * spc)
  }

  /** A file: if its slot is the first in the root directory that fits, and no slot before is an end mark, reading it gives
      the bytes from its first cluster on, where the clusters are `bytes` from number 2 on (see `ClustersLie`). */
  lemma FileReads(img: Bytes, v: Vol, root: seq<Slot>, k: nat, name: Name, bytes: Bytes, o: nat, size: nat)
    requires RootWritten(img, v, root) && FirstFit(root, k, name) && Lies(img, v.dataStart, bytes)
    requires BeginsAt(v.spc, FirstCluster(root[k], 0), o) && FileSize(root[k], 0) == size && o + size <= |bytes|
    ensures RootFile(img, v, name) == Ok(bytes[o..o + size])
  {
    SlotFound(img, v, root, k, name);
    FoundReads(img, v, name, Found(k, FirstCluster(root[k], 0), size), bytes, o);
  }

  lemma FoundReads(img: Bytes, v: Vol, name: Name, f: Found, bytes: Bytes, o: nat)
    requires RootHeld(img, v) && RootEntry(img, v, name) == Some(f) && BeginsAt(v.spc, f.cluster, o)
    requires Lies(img, v.dataStart, bytes) && o + f.size <= |bytes|
    ensures RootFile(img, v, name) == Ok(bytes[o..o + f.size])
  {
    assert ClusterOff(v, f.cluster) == v.dataStart + o;
    SliceOfSlice(img, v.dataStart, v.dataStart + |bytes|, o, o + f.size);
  }

  lemma SlotFound(img: Bytes, v: Vol, root: seq<Slot>, k: nat, name: Name)
    requires RootWritten(img, v, root) && FirstFit(root, k, name)
    ensures RootEntry(img, v, name) == Some(Found(k, FirstCluster(root[k], 0), FileSize(root[k], 0)))
  {
    SlotsWritten(img, v, RootDir(v), root);
    SearchSkips(root, 0, k, name, false);
    LookupIsSearch(img, SectorsIn(img, v, RootDir(v)), name, false);
  }

  ghost predicate Formatted(img: Bytes, w: Whole, lba: nat, v: Vol) {
    WellSized(w, lba) && img == Written(w) && ReadVol(img, lba) == Ok(v)
  }

  lemma ClustersLie(img: Bytes, w: Whole, lba: nat, v: Vol)
    requires Formatted(img, w, lba, v)
    ensures v.spc == w.boot.sectorsPerCluster && Lies(img, v.dataStart, Join(w.clusters))
  {
    WholeRead(img, w, lba);
    FitsWhole(w, lba, v, WholeParts(w));
    PartAt(WholeParts(w), 5);
  }

  /** The number of entries of a table: two or four bytes each. */
  function TableEntries(b: Boot): nat {
    if b.rootEntries > 0 then 256 * TableSectors(b) else 128 * TableSectors(b)
  }

  /** One or two tables with no entry beyond the clusters: the volume can be worked on, and its table is the first one. */
  lemma WholeHolds(img: Bytes, w: Whole, lba: nat, v: Vol)
    requires Formatted(img, w, lba, v) && 1 <= w.boot.tables <= 2
    requires TableEntries(w.boot) < (if w.boot.rootEntries > 0 then 0xfff8 else 0x0fff_fff8)
    requires TableEntries(w.boot) <= |w.clusters| + 2
    ensures Holds(img, v) && Entries(v) == TableEntries(w.boot) && Fat(img, v) == View(v.kind, w.tables[0])
  {
    var n := TableEntries(w.boot);
    WholeRead(img, w, lba);
    EntriesAre(w.boot, v);
    ClustersLie(img, w, lba, v);
    EndThere(img, w, v, n);
    HoldsWhen(img, w.boot, lba, v);
    FirstTable(img, w, v);
  }

  lemma EntriesAre(b: Boot, v: Vol)
    requires Describes(b, v)
    ensures Entries(v) == TableEntries(b)
  {
  }

  lemma HoldsWhen(img: Bytes, b: Boot, lba: nat, v: Vol)
    requires Describes(b, v) && Geometry(v) && v.base == 512 * lba && 1 <= b.tables <= 2 && b.reserved > 0
    requires Entries(v) < (if b.rootEntries > 0 then 0xfff8 else 0x0fff_fff8) && ClusterOff(v, Entries(v)) <= |img|
    ensures Holds(img, v)
  {
    Multiple(lba, 0);
  }

  lemma FirstTable(img: Bytes, w: Whole, v: Vol)
    requires Holds(img, v) && TablesFound(img, w, v) && |w.tables| > 0
    ensures Fat(img, v) == View(v.kind, w.tables[0])
  {
    FatIs(img, v);
    assert InRow(img, FatOff(v), FatBytes(v), 0, w.tables[0]);
    assert 0 * FatBytes(v) == 0;
  }

  lemma EndThere(img: Bytes, w: Whole, v: Vol, n: nat)
    requires ClustersFound(img, w, v) && v.dataStart <= |img| && 2 <= n <= |w.clusters| + 2
    ensures ClusterOff(v, n) <= |img|
  {
    if n > 2 {
      assert Lies(img, ClusterOff(v, n - 1), w.clusters[n - 1 - 2]);
      RunBytes(v, n - 1, 1);
    }
  }

  // ---------------------------------------------------------------- what a listing shows

  /** A slot with an entry: in use, neither part of a long name nor a label nor one of the two dot entries. */
  predicate Visible(e: Slot) {
    && e[0] != 0 && e[0] != 0xe5 && e[11] != 0x0f && e[11] / 8 % 2 == 0
    && e[..8] != [0x2e, 0x20, 0x20, 0x20, 0x20, 0x20, 0x20, 0x20] && e[..8] != [0x2e, 0x2e, 0x20, 0x20, 0x20, 0x20, 0x20, 0x20]
  }

  /** The slots before the end mark that are visible, in their order. */
  function VisibleSlots(slots: seq<Slot>): (v: seq<Slot>)
  {
    if slots == [] || slots[0][0] == 0 then []
    else (if Visible(slots[0]) then [slots[0]] else []) + VisibleSlots(slots[1..])
  }

  /** A listing shows one entry for each of them, under its name. */
  lemma {:induction false} ListedSlots(slots: seq<Slot>, i: nat, pending: seq<Part>, j: nat)
    requires i <= |slots|
    ensures var listed, visible := List(slots, i, pending), VisibleSlots(slots[i..]);
            && |listed| == |visible|
            && (j < |listed| ==> listed[j].name == visible[j][..11] && (listed[j].isDir <==> visible[j][11] / 16 % 2 == 1))
    decreases |slots| - i
  {
    if i < |slots| {
      var e, tail := slots[i], slots[i..];
      assert tail[0] == e && tail[1..] == slots[i + 1..];
      SlotAdds(e, pending);
      assert e[..11][..8] == e[..8];
      assert ShownSlot(e) <==> Visible(e);
      var n := |Adds(e, pending)|;
      ListedSlots(slots, i + 1, StillPending(e, pending), if j < n then j else j - n);
    }
  }

  predicate PartThere(e: Slot) {
    e[0] != 0 && e[0] != 0xe5 && e[11] == 0x0f
  }

  /** The parts pending at a slot are those in the slots just before it, without a gap. */
  lemma {:induction false} WaitingIs(slots: seq<Slot>, j: nat, i: nat)
    requires j <= i <= |slots| && (forall k :: j <= k < i ==> PartThere(slots[k])) && (j > 0 ==> !PartThere(slots[j - 1]))
    ensures Waiting(slots, i) == Parts(slots[j..i])
  {
    if i > j {
      WaitingIs(slots, j, i - 1);
      SlotAdds(slots[i - 1], Waiting(slots, i - 1));
      LastPart(slots, j, i);
    } else {
      assert Parts(slots[j..i]) == [];
      if j > 0 {
        SlotAdds(slots[j - 1], Waiting(slots, j - 1));
      }
    }
  }

  lemma LastPart(slots: seq<Slot>, j: nat, i: nat)
    requires j < i <= |slots|
    ensures Parts(slots[j..i]) == Parts(slots[j..i - 1]) + [PartOf(slots[i - 1])]
  {
    assert slots[j..i] == slots[j..i - 1] + [slots[i - 1]];
  }

  /** A visible slot is listed with the long name that those parts give it. */
  lemma EntryListed(slots: seq<Slot>, j: nat, i: nat)
    requires j <= i < |slots| && Visible(slots[i]) && forall k :: 0 <= k < i ==> slots[k][0] != 0
    requires (forall k :: j <= k < i ==> PartThere(slots[k])) && (j > 0 ==> !PartThere(slots[j - 1]))
    ensures var n := |List(slots[..i], 0, [])|;
            n < |List(slots, 0, [])|
            && List(slots, 0, [])[n] == DirEnt(slots[i][..11], slots[i][11] / 16 % 2 == 1, Take(Parts(slots[j..i]), slots[i][..11]))
  {
    var e, pending := slots[i], Waiting(slots, i);
    WaitingIs(slots, j, i);
    ListSplits(slots, 0, i);
    SlotAdds(e, pending);
    assert e[..11][..8] == e[..8];
    assert ShownSlot(e) && List(slots, i, pending) == [EntryFrom(e, pending)] + List(slots, i + 1, StillPending(e, pending));
  }
}
