/**
 A FAT volume written down from its parts, in the order and with the widths of the Microsoft FAT32 File System
 Specification 1.03 (sections "Boot Sector and BPB", "FAT Data Structure" and "FAT Directory Structure"), and what
 xtask/src/fat32_write.rs reads of it.
 */
module FatLayout {
  import opened Base
  import opened Words
  import opened DirSlots
  import opened FatTable
  import opened FatVolume

  // ---------------------------------------------------------------- parts, one after the other

  function Join(parts: seq<Bytes>): Bytes {
    if parts == [] then [] else parts[0] + Join(parts[1..])
  }

  /** A part lies at byte `o`. */
  predicate Lies(img: Bytes, o: nat, part: Bytes) {
    o + |part| <= |img| && img[o..o + |part|] == part
  }

  /** Where part `k` begins. */
  function Start(parts: seq<Bytes>, k: nat): (n: nat)
    requires k <= |parts|
    ensures n <= |Join(parts)|
  {
    if k == 0 then 0 else |parts[0]| + Start(parts[1..], k - 1)
  }

  lemma {:induction false} NextPart(parts: seq<Bytes>, k: nat)
    requires k < |parts|
    ensures Start(parts, k + 1) == Start(parts, k) + |parts[k]|
  {
    if k > 0 {
      NextPart(parts[1..], k - 1);
    }
  }

  lemma {:induction false} PartAt(parts: seq<Bytes>, k: nat)
    requires k < |parts|
    ensures Lies(Join(parts), Start(parts, k), parts[k])
  {
    if k > 0 {
      PartAt(parts[1..], k - 1);
      LiesAfter(parts[0], Join(parts[1..]), Start(parts[1..], k - 1), parts[k]);
    }
  }

  lemma LiesAfter(a: Bytes, b: Bytes, o: nat, part: Bytes)
    requires Lies(b, o, part)
    ensures Lies(a + b, |a| + o, part)
  {
    assert (a + b)[|a| + o..|a| + o + |part|] == b[o..o + |part|];
  }

  lemma LiesBehind(s: Bytes, n: nat, o: nat, part: Bytes)
    requires n <= |s| && Lies(s, n + o, part)
    ensures Lies(s[n..], o, part)
  {
    assert s[n..][o..o + |part|] == s[n + o..n + o + |part|];
  }

  /** Bytes that hold each part at its place are the parts joined. */
  lemma {:induction false} JoinIs(s: Bytes, parts: seq<Bytes>)
    requires |s| == Start(parts, |parts|)
    requires forall k :: 0 <= k < |parts| ==> Lies(s, Start(parts, k), parts[k])
    ensures Join(parts) == s
  {
    if parts != [] {
      var a, tail := parts[0], s[|parts[0]|..];
      assert Lies(s, Start(parts, 0), parts[0]);
      forall k | 0 <= k < |parts[1..]|
        ensures Lies(tail, Start(parts[1..], k), parts[1..][k])
      {
        assert Lies(s, Start(parts, k + 1), parts[k + 1]);
        LiesBehind(s, |a|, Start(parts[1..], k), parts[k + 1]);
      }
      JoinIs(tail, parts[1..]);
    }
  }

  /** Parts of one size begin at its multiples. */
  lemma {:induction false} EvenParts(parts: seq<Bytes>, size: nat, k: nat)
    requires k <= |parts| && forall i :: 0 <= i < |parts| ==> |parts[i]| == size
    ensures Start(parts, k) == k * size
  {
    if k > 0 {
      EvenParts(parts[1..], size, k - 1);
    }
  }

  lemma {:induction false} JoinLength(parts: seq<Bytes>)
    ensures |Join(parts)| == Start(parts, |parts|)
  {
    if parts != [] {
      JoinLength(parts[1..]);
    }
  }

  // ---------------------------------------------------------------- the boot sector

  /** The fields that are read, and what lies between them as bytes. */
  datatype Boot = Boot(
    jumpAndName: Bytes, bytesPerSector: nat, sectorsPerCluster: nat, reserved: nat, tables: nat, rootEntries: nat,
    totalAndMedia: Bytes, tableSectors16: nat, disk: Bytes, tableSectors32: nat, flags: Bytes, rootCluster: nat,
    code: Bytes, signature: Bytes)

  /** Every field fits its width. */
  predicate Sized(b: Boot) {
    && |b.jumpAndName| == 11 && b.bytesPerSector < 0x1_0000 && b.sectorsPerCluster < 0x100 && b.reserved < 0x1_0000
    && b.tables < 0x100 && b.rootEntries < 0x1_0000 && |b.totalAndMedia| == 3 && b.tableSectors16 < 0x1_0000
    && |b.disk| == 12 && b.tableSectors32 < 0x1_0000_0000 && |b.flags| == 4 && b.rootCluster < 0x1_0000_0000
    && |b.code| == 462 && |b.signature| == 2
  }

  function BootParts(b: Boot): (parts: seq<Bytes>)
    ensures |parts| == 14
  {
    [b.jumpAndName, LE(b.bytesPerSector, 2), LE(b.sectorsPerCluster, 1), LE(b.reserved, 2), LE(b.tables, 1),
     LE(b.rootEntries, 2), b.totalAndMedia, LE(b.tableSectors16, 2), b.disk, LE(b.tableSectors32, 4), b.flags,
     LE(b.rootCluster, 4), b.code, b.signature]
  }

  function BootSector(b: Boot): Bytes {
    Join(BootParts(b))
  }

  /** The offsets of the specification's table. */
  function Offsets(): (o: seq<nat>)
    ensures |o| == 15
  {
    [0, 11, 13, 14, 16, 17, 19, 22, 24, 36, 40, 44, 48, 510, 512]
  }

  lemma BootOffsets(b: Boot, parts: seq<Bytes>)
    requires Sized(b) && parts == BootParts(b)
    ensures forall k :: 0 <= k <= 14 ==> Start(parts, k) == Offsets()[k]
  {
    assert Start(parts, 0) == 0;
    OffsetStep(parts, 0);
    OffsetStep(parts, 1);
    OffsetStep(parts, 2);
    OffsetStep(parts, 3);
    OffsetStep(parts, 4);
    OffsetStep(parts, 5);
    OffsetStep(parts, 6);
    SecondHalf(parts);
  }

  lemma SecondHalf(parts: seq<Bytes>)
    requires |parts| == 14 && Start(parts, 7) == 22
    requires forall k :: 7 <= k < 14 ==> |parts[k]| == Offsets()[k + 1] - Offsets()[k]
    ensures forall k :: 7 <= k <= 14 ==> Start(parts, k) == Offsets()[k]
  {
    OffsetStep(parts, 7);
    OffsetStep(parts, 8);
    OffsetStep(parts, 9);
    OffsetStep(parts, 10);
    OffsetStep(parts, 11);
    OffsetStep(parts, 12);
    OffsetStep(parts, 13);
  }

  lemma OffsetStep(parts: seq<Bytes>, k: nat)
    requires |parts| == 14 && k < 14 && Start(parts, k) == Offsets()[k] && Offsets()[k + 1] == Offsets()[k] + |parts[k]|
    ensures Start(parts, k + 1) == Offsets()[k + 1]
  {
    NextPart(parts, k);
  }

  /** A field of a boot sector that lies at `base` of an image. */
  lemma FieldAt(img: Bytes, base: nat, b: Boot, parts: seq<Bytes>, k: nat)
    requires Sized(b) && parts == BootParts(b) && k < 14
    requires base + 512 <= |img| && img[base..base + 512] == BootSector(b)
    ensures |parts[k]| == Offsets()[k + 1] - Offsets()[k]
    ensures Offsets()[k] + |parts[k]| <= 512 && img[base + Offsets()[k]..base + Offsets()[k] + |parts[k]|] == parts[k]
  {
    BootOffsets(b, parts);
    PartAt(parts, k);
    NextPart(parts, k);
    SliceOfSlice(img, base, base + 512, Start(parts, k), Start(parts, k) + |parts[k]|);
  }

  lemma ByteAt(img: Bytes, o: nat, n: nat)
    requires n < 256 && o + 1 <= |img| && img[o..o + 1] == LE(n, 1)
    ensures img[o] == n
  {
    assert img[o] == img[o..o + 1][0];
  }

  lemma NumberAt(img: Bytes, o: nat, n: nat, w: nat)
    requires o + w <= |img| && img[o..o + w] == LE(n, w) && n < Exp256(w)
    ensures Num(img, o, w) == n
  {
    LERoundTrip(n, w);
  }

  lemma SizesRead(img: Bytes, base: nat, b: Boot, parts: seq<Bytes>)
    requires Sized(b) && parts == BootParts(b)
    requires base + 512 <= |img| && img[base..base + 512] == BootSector(b)
    ensures Num(img, base + 11, 2) == b.bytesPerSector && img[base + 13] == b.sectorsPerCluster
    ensures Num(img, base + 14, 2) == b.reserved && img[base + 16] == b.tables
    ensures img[base + 510] == b.signature[0] && img[base + 511] == b.signature[1]
  {
    ExpValues();
    FieldAt(img, base, b, parts, 1);
    NumberAt(img, base + 11, b.bytesPerSector, 2);
    FieldAt(img, base, b, parts, 2);
    ByteAt(img, base + 13, b.sectorsPerCluster);
    FieldAt(img, base, b, parts, 3);
    NumberAt(img, base + 14, b.reserved, 2);
    FieldAt(img, base, b, parts, 4);
    ByteAt(img, base + 16, b.tables);
    FieldAt(img, base, b, parts, 13);
    assert img[base + 510..base + 512][0] == img[base + 510];
    assert img[base + 510..base + 512][1] == img[base + 511];
  }

  lemma TablesRead(img: Bytes, base: nat, b: Boot, parts: seq<Bytes>)
    requires Sized(b) && parts == BootParts(b)
    requires base + 512 <= |img| && img[base..base + 512] == BootSector(b)
    ensures Num(img, base + 17, 2) == b.rootEntries && Num(img, base + 22, 2) == b.tableSectors16
    ensures Num(img, base + 36, 4) == b.tableSectors32 && Num(img, base + 44, 4) == b.rootCluster
  {
    ExpValues();
    FieldAt(img, base, b, parts, 5);
    NumberAt(img, base + 17, b.rootEntries, 2);
    FieldAt(img, base, b, parts, 7);
    NumberAt(img, base + 22, b.tableSectors16, 2);
    FieldAt(img, base, b, parts, 9);
    NumberAt(img, base + 36, b.tableSectors32, 4);
    FieldAt(img, base, b, parts, 11);
    NumberAt(img, base + 44, b.rootCluster, 4);
  }

  predicate Signed(b: Boot) {
    |b.signature| == 2 && b.signature[0] == 0x55 && b.signature[1] == 0xaa
  }

  function TableSectors(b: Boot): nat {
    if b.rootEntries > 0 then b.tableSectors16 else b.tableSectors32
  }

  /** The number of sectors of the fixed root directory. */
  predicate RootTakes(b: Boot, sectors: nat) {
    512 * sectors >= 32 * b.rootEntries && 512 * sectors < 32 * b.rootEntries + 512
  }

  /** The fields of the volume are those of the boot sector. */
  predicate Describes(b: Boot, v: Vol) {
    && v.spc == b.sectorsPerCluster && v.reserved == b.reserved && v.numFats == b.tables && v.spf == TableSectors(b)
    && v.kind == (if b.rootEntries > 0 then Fat16 else Fat32)
    && (b.rootEntries > 0 ==> RootTakes(b, v.rootSectors))
    && (b.rootEntries == 0 ==> v.rootSectors == b.sectorsPerCluster && Geometry(v) && RootCluster(v) == b.rootCluster)
  }

  /** The refusals, in the order they are given. */
  function Refusal(b: Boot): Option<Error> {
    if !Signed(b) then Some(NoSignature)
    else if b.bytesPerSector != 512 then Some(SectorSize)
    else if b.sectorsPerCluster == 0 then Some(NoClusterSize)
    else if b.rootEntries > 0 && b.tableSectors16 == 0 then Some(BadFat16)
    else if b.rootEntries == 0 && b.tableSectors32 == 0 then Some(BadFat32)
    else if b.rootEntries == 0 && b.rootCluster < 2 then Some(BadRootCluster)
    else None
  }

  /** What is read of a boot sector given by its fields: the refusal, or the volume. */
  lemma BootRead(img: Bytes, lba: nat, b: Boot)
    requires Sized(b) && 512 * lba + 512 <= |img| && img[512 * lba..512 * lba + 512] == BootSector(b)
    ensures match Refusal(b)
            case Some(e) => ReadVol(img, lba) == Err(e)
            case None => ReadVol(img, lba).Ok? && ReadVol(img, lba).value.base == 512 * lba && Describes(b, ReadVol(img, lba).value)
  {
    SizesRead(img, 512 * lba, b, BootParts(b));
    TablesRead(img, 512 * lba, b, BootParts(b));
    if Refusal(b).None? {
      if b.rootEntries > 0 {
        Describes16(b, 512 * lba);
      } else {
        Describes32(b, 512 * lba);
      }
    }
  }

  lemma Describes16(b: Boot, base: nat)
    requires Refusal(b).None? && b.rootEntries > 0
    ensures Describes(b, Vol16(base, b.sectorsPerCluster, b.reserved, b.tables, b.tableSectors16, b.rootEntries))
  {
  }

  lemma Describes32(b: Boot, base: nat)
    requires Refusal(b).None? && b.rootEntries == 0
    ensures Describes(b, Vol32(base, b.sectorsPerCluster, b.reserved, b.tables, b.tableSectors32, b.rootCluster))
  {
    Quotient(b.rootCluster - 2, b.sectorsPerCluster * 512);
  }

  lemma {:induction false} NumberAgain(b: Bytes)
    ensures LE(FromLE(b), |b|) == b
  {
    if b != [] {
      NumberAgain(b[1..]);
      assert (b[0] + 256 * FromLE(b[1..])) / 256 == FromLE(b[1..]) && (b[0] + 256 * FromLE(b[1..])) % 256 == b[0];
    }
  }

  function BootOf(s: Bytes): Boot
    requires |s| == 512
  {
    Boot(s[0..11], FromLE(s[11..13]), FromLE(s[13..14]), FromLE(s[14..16]), FromLE(s[16..17]), FromLE(s[17..19]), s[19..22],
         FromLE(s[22..24]), s[24..36], FromLE(s[36..40]), s[40..44], FromLE(s[44..48]), s[48..510], s[510..512])
  }

  lemma FieldBound(b: Bytes, w: nat)
    requires |b| == w && (w == 1 || w == 2 || w == 4)
    ensures FromLE(b) < (if w == 1 then 0x100 else if w == 2 then 0x1_0000 else 0x1_0000_0000) && LE(FromLE(b), w) == b
  {
    FromLEBound(b);
    ExpValues();
    assert Exp256(1) == 256;
    NumberAgain(b);
  }

  lemma CutsOf(s: Bytes, b: Boot)
    requires |s| == 512 && b == BootOf(s)
    ensures Sized(b)
    ensures BootParts(b) == [s[0..11], s[11..13], s[13..14], s[14..16], s[16..17], s[17..19], s[19..22], s[22..24],
                             s[24..36], s[36..40], s[40..44], s[44..48], s[48..510], s[510..512]]
  {
    FieldBound(s[11..13], 2);
    FieldBound(s[13..14], 1);
    FieldBound(s[14..16], 2);
    FieldBound(s[16..17], 1);
    FieldBound(s[17..19], 2);
    FieldBound(s[22..24], 2);
    FieldBound(s[36..40], 4);
    FieldBound(s[44..48], 4);
  }

  /** Every sector is a boot sector with some fields, so `BootRead` says what is read of every sector there is. */
  lemma EverySector(s: Bytes)
    requires |s| == 512
    ensures Sized(BootOf(s)) && BootSector(BootOf(s)) == s
  {
    var b := BootOf(s);
    CutsOf(s, b);
    var parts := BootParts(b);
    BootOffsets(b, parts);
    forall k | 0 <= k < 14
      ensures Lies(s, Start(parts, k), parts[k])
    {
      assert Start(parts, k) == Offsets()[k];
      if k < 7 {
        CutAt(s, parts, k);
      } else {
        CutBehind(s, parts, k);
      }
    }
    assert Start(parts, 14) == 512;
    JoinIs(s, parts);
  }

  lemma CutAt(s: Bytes, parts: seq<Bytes>, k: nat)
    requires |s| == 512 && k < 7 && |parts| == 14
    requires parts[..7] == [s[0..11], s[11..13], s[13..14], s[14..16], s[16..17], s[17..19], s[19..22]]
    requires Start(parts, k) == Offsets()[k]
    ensures Lies(s, Start(parts, k), parts[k])
  {
    assert parts[k] == parts[..7][k];
  }

  lemma CutBehind(s: Bytes, parts: seq<Bytes>, k: nat)
    requires |s| == 512 && 7 <= k < 14 && |parts| == 14
    requires parts[7..] == [s[22..24], s[24..36], s[36..40], s[40..44], s[44..48], s[48..510], s[510..512]]
    requires Start(parts, k) == Offsets()[k]
    ensures Lies(s, Start(parts, k), parts[k])
  {
    assert parts[k] == parts[7..][k - 7];
  }

  lemma ShortIff(img: Bytes, lba: nat)
    ensures ReadVol(img, lba) == Err(ShortImage) <==> |img| < 512 * lba + 512
  {
  }

  // ---------------------------------------------------------------- the whole volume

  /** The parts of a volume that begins after `before`: the boot sector and the other reserved sectors, the tables, the
      fixed root directory, the clusters from number 2 on, and whatever follows. */
  datatype Whole = Whole(before: Bytes, boot: Boot, spare: Bytes, tables: seq<Bytes>, root: Bytes, clusters: seq<Bytes>, after: Bytes)

  predicate WellSized(w: Whole, lba: nat) {
    var b := w.boot;
    && Sized(b) && Refusal(b).None?
    && |w.before| == 512 * lba && 512 + |w.spare| == 512 * b.reserved
    && |w.tables| == b.tables && (forall i :: 0 <= i < |w.tables| ==> |w.tables[i]| == 512 * TableSectors(b))
    && |w.root| % 512 == 0 && RootTakes(b, |w.root| / 512)
    && (forall i :: 0 <= i < |w.clusters| ==> |w.clusters[i]| == 512 * b.sectorsPerCluster)
    && (b.rootEntries == 0 ==> b.rootCluster < |w.clusters| + 2)
  }

  function WholeParts(w: Whole): (parts: seq<Bytes>)
    ensures |parts| == 7
  {
    [w.before, BootSector(w.boot), w.spare, Join(w.tables), w.root, Join(w.clusters), w.after]
  }

  function Written(w: Whole): Bytes {
    Join(WholeParts(w))
  }

  lemma BootLength(b: Boot)
    requires Sized(b)
    ensures |BootSector(b)| == 512
  {
    JoinLength(BootParts(b));
    BootOffsets(b, BootParts(b));
  }

  /** The volume that is read has each part where it was written. */
  predicate AsWritten(img: Bytes, w: Whole, v: Vol) {
    v.spc > 0 && TablesFound(img, w, v) && RootFound(img, w, v) && ClustersFound(img, w, v)
  }

  /** Parts of one size, one after the other from `o` on. */
  predicate Row(img: Bytes, o: nat, size: nat, parts: seq<Bytes>) {
    forall i :: 0 <= i < |parts| ==> InRow(img, o, size, i, parts[i])
  }

  predicate InRow(img: Bytes, o: nat, size: nat, i: nat, part: Bytes) {
    |part| == size && Lies(img, o + i * size, part)
  }

  predicate TablesFound(img: Bytes, w: Whole, v: Vol) {
    Row(img, FatOff(v), FatBytes(v), w.tables)
  }

  predicate RootFound(img: Bytes, w: Whole, v: Vol) {
    if v.kind.Fat16? then |w.root| == 512 * v.rootSectors && Lies(img, v.rootOff, w.root)
    else 2 <= w.boot.rootCluster < |w.clusters| + 2 && Lies(img, v.rootOff, w.clusters[w.boot.rootCluster - 2])
  }

  predicate ClustersFound(img: Bytes, w: Whole, v: Vol) {
    forall c :: 2 <= c < |w.clusters| + 2 ==> |w.clusters[c - 2]| == ClusterBytes(v) && Lies(img, ClusterOff(v, c), w.clusters[c - 2])
  }

  lemma InPart(parts: seq<Bytes>, k: nat, inner: seq<Bytes>, size: nat, o: nat, i: nat)
    requires k < |parts| && parts[k] == Join(inner) && i < |inner| && o == Start(parts, k)
    requires forall j :: 0 <= j < |inner| ==> |inner[j]| == size
    ensures InRow(Join(parts), o, size, i, inner[i])
  {
    EvenParts(inner, size, i);
    PartInPart(parts, k, inner, i);
    RowAt(Join(parts), o, size, i, inner[i], Start(inner, i));
  }

  lemma RowAt(img: Bytes, o: nat, size: nat, i: nat, part: Bytes, d: nat)
    requires d == i * size && |part| == size && Lies(img, o + d, part)
    ensures InRow(img, o, size, i, part)
  {
  }

  lemma PartInPart(parts: seq<Bytes>, k: nat, inner: seq<Bytes>, i: nat)
    requires k < |parts| && parts[k] == Join(inner) && i < |inner|
    ensures Lies(Join(parts), Start(parts, k) + Start(inner, i), inner[i])
  {
    PartAt(parts, k);
    PartAt(inner, i);
    LiesIn(Join(parts), Start(parts, k), parts[k], Start(inner, i), inner[i]);
  }

  lemma LiesIn(img: Bytes, o: nat, part: Bytes, d: nat, inner: Bytes)
    requires Lies(img, o, part) && Lies(part, d, inner)
    ensures Lies(img, o + d, inner)
  {
    SliceOfSlice(img, o, o + |part|, d, d + |inner|);
  }

  lemma RowInPart(parts: seq<Bytes>, k: nat, inner: seq<Bytes>, size: nat, o: nat)
    requires k < |parts| && parts[k] == Join(inner) && o == Start(parts, k) && forall j :: 0 <= j < |inner| ==> |inner[j]| == size
    ensures Row(Join(parts), o, size, inner)
  {
    forall i | 0 <= i < |inner|
      ensures InRow(Join(parts), o, size, i, inner[i])
    {
      InPart(parts, k, inner, size, o, i);
    }
  }

  lemma WholeStarts(w: Whole, lba: nat, parts: seq<Bytes>, size: nat)
    requires WellSized(w, lba) && parts == WholeParts(w) && size == 512 * TableSectors(w.boot)
    ensures Start(parts, 1) == 512 * lba && Start(parts, 3) == 512 * lba + 512 * w.boot.reserved
    ensures Start(parts, 4) == Start(parts, 3) + w.boot.tables * size
    ensures Start(parts, 5) == Start(parts, 4) + |w.root|
  {
    BootLength(w.boot);
    assert Start(parts, 0) == 0;
    NextPart(parts, 0);
    NextPart(parts, 1);
    NextPart(parts, 2);
    NextPart(parts, 3);
    JoinLength(w.tables);
    EvenParts(w.tables, size, |w.tables|);
    NextPart(parts, 4);
  }

  /** A volume whose fields are those of the boot sector. */
  ghost predicate Fitting(w: Whole, lba: nat, v: Vol, parts: seq<Bytes>) {
    && WellSized(w, lba) && parts == WholeParts(w) && Describes(w.boot, v)
    && FatOff(v) == Start(parts, 3) && FatEnd(v) == Start(parts, 4) && v.dataStart == Start(parts, 5)
  }

  lemma FitsWhole(w: Whole, lba: nat, v: Vol, parts: seq<Bytes>)
    requires WellSized(w, lba) && parts == WholeParts(w) && Describes(w.boot, v) && Geometry(v) && v.base == 512 * lba
    ensures Fitting(w, lba, v, parts)
  {
    WholeStarts(w, lba, parts, FatBytes(v));
    Starts(w.boot, v, lba, Start(parts, 3), Start(parts, 4));
    RootLength(w, lba, v);
    DataAt(v);
  }

  lemma RootLength(w: Whole, lba: nat, v: Vol)
    requires WellSized(w, lba) && Describes(w.boot, v)
    ensures |w.root| == if v.kind.Fat16? then 512 * v.rootSectors else 0
  {
    if v.kind.Fat16? {
      OneCount(|w.root|, v.rootSectors, 32 * w.boot.rootEntries);
    }
  }

  lemma DataAt(v: Vol)
    requires Geometry(v)
    ensures v.kind.Fat16? ==> v.rootOff == FatEnd(v) && v.dataStart == FatEnd(v) + 512 * v.rootSectors
    ensures v.kind.Fat32? ==> v.dataStart == FatEnd(v)
  {
  }

  lemma Starts(b: Boot, v: Vol, lba: nat, tables: nat, root: nat)
    requires v.base == 512 * lba && v.reserved == b.reserved && v.numFats == b.tables
    requires tables == 512 * lba + 512 * b.reserved && root == tables + b.tables * FatBytes(v)
    ensures FatOff(v) == tables && FatEnd(v) == root
  {
  }

  lemma OneCount(size: nat, sectors: nat, n: nat)
    requires size % 512 == 0 && n <= size < n + 512 && n <= 512 * sectors < n + 512
    ensures size == 512 * sectors
  {
  }

  lemma PartsThere(w: Whole, lba: nat, v: Vol, parts: seq<Bytes>)
    requires Fitting(w, lba, v, parts)
    ensures TablesFound(Written(w), w, v) && ClustersFound(Written(w), w, v)
  {
    SizesFit(w, lba, v, parts);
    RowInPart(parts, 3, w.tables, FatBytes(v), FatOff(v));
    RowInPart(parts, 5, w.clusters, ClusterBytes(v), v.dataStart);
    RowOfClusters(Written(w), w, v);
  }

  lemma SizesFit(w: Whole, lba: nat, v: Vol, parts: seq<Bytes>)
    requires Fitting(w, lba, v, parts)
    ensures forall i :: 0 <= i < |w.tables| ==> |w.tables[i]| == FatBytes(v)
    ensures forall i :: 0 <= i < |w.clusters| ==> |w.clusters[i]| == ClusterBytes(v)
    ensures parts[3] == Join(w.tables) && parts[5] == Join(w.clusters)
  {
  }

  lemma RowOfClusters(img: Bytes, w: Whole, v: Vol)
    requires Row(img, v.dataStart, ClusterBytes(v), w.clusters)
    ensures ClustersFound(img, w, v)
  {
    forall c: nat | 2 <= c < |w.clusters| + 2
      ensures |w.clusters[c - 2]| == ClusterBytes(v) && Lies(img, ClusterOff(v, c), w.clusters[c - 2])
    {
      var i := c - 2;
      assert InRow(img, v.dataStart, ClusterBytes(v), i, w.clusters[i]);
    }
  }

  lemma RootThere(w: Whole, lba: nat, v: Vol, parts: seq<Bytes>)
    requires Fitting(w, lba, v, parts) && Geometry(v) && ClustersFound(Written(w), w, v)
    ensures RootFound(Written(w), w, v)
  {
    DataAt(v);
    if v.kind.Fat16? {
      PartAt(parts, 4);
      RootLength(w, lba, v);
    } else {
      RootAgain(v, (v.rootOff - v.dataStart) / ClusterBytes(v));
    }
  }

  lemma RootAgain(v: Vol, q: nat)
    requires Geometry(v) && v.kind.Fat32? && q == (v.rootOff - v.dataStart) / ClusterBytes(v)
    ensures v.rootOff == ClusterOff(v, q + 2)
  {
  }

  /** Its boot sector is accepted, and each part is read where it was written. */
  lemma WholeRead(img: Bytes, w: Whole, lba: nat)
    requires WellSized(w, lba) && img == Written(w)
    ensures ReadVol(img, lba).Ok? && ReadVol(img, lba).value.base == 512 * lba && Describes(w.boot, ReadVol(img, lba).value)
    ensures AsWritten(img, w, ReadVol(img, lba).value)
  {
    var parts := WholeParts(w);
    WholeStarts(w, lba, parts, 512 * TableSectors(w.boot));
    BootLength(w.boot);
    PartAt(parts, 1);
    BootRead(img, lba, w.boot);
    var v := ReadVol(img, lba).value;
    FitsWhole(w, lba, v, parts);
    PartsThere(w, lba, v, parts);
    RootThere(w, lba, v, parts);
  }
}
