/**
 Files of a FAT volume (xtask/src/fat32_write.rs): the root directory, a path of directories, the
 check that a file's clusters are one run, and the reads and overwrites that rely on it.
 */
module FatFiles {
  import opened Base
  import opened Words
  import opened DirSlots
  import opened FatTable
  import opened Disk
  import opened FatVolume

  /** The image holds a volume whose directory `d` can be listed. */
  ghost predicate DirHeld(img: Bytes, vol: Vol, d: Dir) {
    Holds(img, vol) && DirOk(vol, Fat(img, vol), d)
  }

  ghost function SectorsIn(img: Bytes, vol: Vol, d: Dir): (secs: seq<nat>)
    requires DirHeld(img, vol, d)
    ensures SectorsInside(img, secs)
  {
    DirInside(img, vol, d);
    DirSectors(vol, Fat(img, vol), d)
  }

  ghost function EntryIn(img: Bytes, vol: Vol, d: Dir, name: Name, wantDir: bool): Option<Found>
    requires DirHeld(img, vol, d)
  {
    Lookup(img, SectorsIn(img, vol, d), name, wantDir)
  }

  /** The bytes of a file as one range from its first cluster. */
  predicate InRange(img: Bytes, vol: Vol, f: Found) {
    f.size > 0 ==> f.cluster >= 2 && ClusterOff(vol, f.cluster) + f.size <= |img|
  }

  function Content(img: Bytes, vol: Vol, f: Found): (b: Bytes)
    requires InRange(img, vol, f)
    ensures |b| == f.size
  {
    if f.size == 0 then [] else img[ClusterOff(vol, f.cluster)..ClusterOff(vol, f.cluster) + f.size]
  }

  // ---------------------------------------------------------------- loading the table

  method LoadFat(disk: Image, vol: Vol) returns (fat: array<byte>)
    requires Holds(disk.img, vol)
    ensures fresh(fat)
    ensures FatOff(vol) + FatBytes(vol) <= |disk.img| && fat[..] == disk.img[FatOff(vol)..FatOff(vol) + FatBytes(vol)]
    ensures View(vol.kind, fat[..]) == Fat(disk.img, vol)
  {
    HoldsTable(disk.img, vol);
    var buf := disk.ReadAt(FatOff(vol), FatOff(vol) + FatBytes(vol));
    fat := new byte[|buf|](i requires 0 <= i < |buf| => buf[i]);
    assert fat[..] == buf;
    FatIs(disk.img, vol);
  }

  method ListDir(disk: Image, vol: Vol, d: Dir) returns (secs: seq<nat>)
    requires DirHeld(disk.img, vol, d)
    ensures secs == SectorsIn(disk.img, vol, d)
  {
    var fat := LoadFat(disk, vol);
    secs := DirSectorOffsets(vol, fat, d);
  }

  // ---------------------------------------------------------------- the root directory

  ghost predicate RootHeld(img: Bytes, vol: Vol) {
    Geometry(vol) && DirHeld(img, vol, RootDir(vol))
  }

  ghost function RootEntry(img: Bytes, vol: Vol, name: Name): Option<Found>
    requires RootHeld(img, vol)
  {
    EntryIn(img, vol, RootDir(vol), name, false)
  }

  /** What reading a file of the root directory gives. */
  ghost function RootFile(img: Bytes, vol: Vol, name: Name): Result<Bytes, Error>
    requires RootHeld(img, vol)
  {
    match RootEntry(img, vol, name)
    case None => Err(NotFound)
    case Some(f) =>
      if f.cluster < 2 then Err(BelowFirst)
      else if InRange(img, vol, f) then Ok(Content(img, vol, f))
      else Err(ShortImage)
  }

  lemma ReadsAt(img: Bytes, vol: Vol, name: Name, f: Found, data: Bytes)
    requires RootHeld(img, vol) && RootEntry(img, vol, name) == Some(f)
    requires f.cluster >= 2 && f.size > 0 && ClusterOff(vol, f.cluster) + f.size <= |img|
    requires data == img[ClusterOff(vol, f.cluster)..ClusterOff(vol, f.cluster) + f.size]
    ensures RootFile(img, vol, name) == Ok(data)
  {
  }

  method ReadRootFile(disk: Image, lba: nat, name: Name) returns (r: Result<Bytes, Error>)
    requires var v := ReadVol(disk.img, lba); v.Ok? ==> RootHeld(disk.img, v.value)
    ensures r == var v := ReadVol(disk.img, lba); if v.Err? then Err(v.error) else RootFile(disk.img, v.value, name)
  {
    var v := ReadVol(disk.img, lba);
    if v.Err? {
      return Err(v.error);
    }
    var secs := ListDir(disk, v.value, RootDir(v.value));
    var f := FindEntryLoc(disk, secs, name, false);
    if f.None? {
      return Err(NotFound);
    }
    if f.value.cluster < 2 {
      return Err(BelowFirst);
    }
    if f.value.size == 0 {
      return Ok([]);
    }
    var off := ClusterOff(v.value, f.value.cluster);
    if off + f.value.size > |disk.img| {
      return Err(ShortImage);
    }
    var buf := disk.ReadAt(off, off + f.value.size);
    r := Ok(buf);
  }

  // ---------------------------------------------------------------- paths

  /** Every directory on the way can be listed. */
  ghost predicate PathHeld(img: Bytes, vol: Vol, d: Dir, path: seq<Name>)
    decreases |path|
  {
    && DirHeld(img, vol, d)
    && (path != [] ==>
          var f := EntryIn(img, vol, d, path[0], true);
          f.Some? ==> PathHeld(img, vol, At(f.value.cluster), path[1..]))
  }

  /** The directory at the end of a path. */
  ghost function Resolve(img: Bytes, vol: Vol, d: Dir, path: seq<Name>): (r: Option<Dir>)
    requires PathHeld(img, vol, d, path)
    ensures r.Some? ==> DirHeld(img, vol, r.value)
    decreases |path|
  {
    if path == [] then Some(d)
    else
      match EntryIn(img, vol, d, path[0], true)
      case None => None
      case Some(f) => Resolve(img, vol, At(f.cluster), path[1..])
  }

  method ResolveDir(disk: Image, vol: Vol, path: seq<Name>) returns (r: Option<Dir>)
    requires Geometry(vol) && PathHeld(disk.img, vol, RootDir(vol), path)
    ensures r == Resolve(disk.img, vol, RootDir(vol), path)
  {
    var d := RootDir(vol);
    assert path[0..] == path;
    for i := 0 to |path|
      invariant PathHeld(disk.img, vol, d, path[i..])
      invariant Resolve(disk.img, vol, RootDir(vol), path) == Resolve(disk.img, vol, d, path[i..])
    {
      var secs := ListDir(disk, vol, d);
      var f := FindEntryLoc(disk, secs, path[i], true);
      assert path[i..][0] == path[i] && path[i..][1..] == path[i + 1..];
      if f.None? {
        return None;
      }
      d := At(f.value.cluster);
    }
    r := Some(d);
  }

  // ---------------------------------------------------------------- contiguous files

  datatype Located = Located(dataOff: nat, size: nat)

  /** Where the data of a file begin; an empty file has none. */
  function DataOff(vol: Vol, f: Found): nat {
    if f.cluster >= 2 then ClusterOff(vol, f.cluster) else vol.dataStart
  }

  /** What locating a file at `f` answers. */
  ghost function LocatedAt(vol: Vol, t: Table, f: Found): Result<Located, Error>
    requires vol.spc > 0
  {
    var n := ClustersNeeded(f.size, ClusterBytes(vol));
    if n == 0 || IsRun(vol.kind, t, f.cluster, n) then Ok(Located(DataOff(vol, f), f.size))
    else if Linear(t, f.cluster, n - 1) then Err(ChainEnd)
    else Err(NotContiguous)
  }

  predicate Linear(t: Table, s: nat, n: nat) {
    s + n < |t| && forall c :: s <= c < s + n ==> t[c] == c + 1
  }

  /** Following the links of `f` never leaves the table. */
  predicate LinksInside(t: Table, f: Found) {
    f.size > 0 ==> 2 <= f.cluster < |t| && forall c :: 0 <= c < |t| ==> t[c] != |t|
  }

  ghost predicate FileHeld(img: Bytes, vol: Vol, d: Dir, name: Name) {
    && DirHeld(img, vol, d)
    && var f := EntryIn(img, vol, d, name, false);
       f.Some? ==> LinksInside(Fat(img, vol), f.value)
  }

  ghost predicate PathToFile(img: Bytes, vol: Vol, path: seq<Name>, name: Name) {
    && Geometry(vol) && PathHeld(img, vol, RootDir(vol), path)
    && var d := Resolve(img, vol, RootDir(vol), path);
       d.Some? ==> FileHeld(img, vol, d.value, name)
  }

  ghost function Locate(img: Bytes, vol: Vol, path: seq<Name>, name: Name): Result<Located, Error>
    requires PathToFile(img, vol, path, name)
  {
    match Resolve(img, vol, RootDir(vol), path)
    case None => Err(NotFound)
    case Some(d) =>
      match EntryIn(img, vol, d, name, false)
      case None => Err(NotFound)
      case Some(f) => LocatedAt(vol, Fat(img, vol), f)
  }

  method LocateInDir(disk: Image, vol: Vol, path: seq<Name>, name: Name) returns (r: Result<Located, Error>)
    requires PathToFile(disk.img, vol, path, name)
    ensures r == Locate(disk.img, vol, path, name)
  {
    var d := ResolveDir(disk, vol, path);
    if d.None? {
      return Err(NotFound);
    }
    var secs := ListDir(disk, vol, d.value);
    var f := FindEntryLoc(disk, secs, name, false);
    if f.None? {
      return Err(NotFound);
    }
    r := CheckRun(disk, vol, f.value);
  }

  method CheckRun(disk: Image, vol: Vol, f: Found) returns (r: Result<Located, Error>)
    requires Holds(disk.img, vol) && LinksInside(Fat(disk.img, vol), f)
    ensures r == LocatedAt(vol, Fat(disk.img, vol), f)
  {
    if f.size > 0 {
      var fat := LoadFat(disk, vol);
      var bad := CheckLinks(vol.kind, fat, f.cluster, ClustersNeeded(f.size, ClusterBytes(vol)));
      if bad.Some? {
        return Err(bad.value);
      }
    }
    r := Ok(Located(DataOff(vol, f), f.size));
  }

  /** Whether `n` clusters from `s` on are one ended run, and what is wrong if not. */
  method CheckLinks(k: Kind, fat: array<byte>, s: nat, n: nat) returns (bad: Option<Error>)
    requires var t := View(k, fat[..]); n > 0 && 2 <= s < |t| && forall c :: 0 <= c < |t| ==> t[c] != |t|
    ensures var t := View(k, fat[..]);
            bad == if IsRun(k, t, s, n) then None else if Linear(t, s, n - 1) then Some(ChainEnd) else Some(NotContiguous)
  {
    ghost var t := View(k, fat[..]);
    var c := s;
    for i := 0 to n
      invariant Followed(k, t, s, n, i, c) == true
    {
      FollowStep(k, t, s, n, i, c);
      var next := FatEntry(k, fat, c);
      if i + 1 < n {
        if next != c + 1 {
          return Some(NotContiguous);
        }
        c := next;
      } else if !IsEoc(k, next) {
        return Some(ChainEnd);
      }
    }
    bad := None;
  }

  /** After `i` of `n` clusters: `c` is the next one, or the last. */
  predicate Followed(k: Kind, t: Table, s: nat, n: nat, i: nat, c: nat)
    requires n > 0
  {
    c == s + Min(i, n - 1) && Linear(t, s, Min(i, n - 1)) && (i == n ==> IsRun(k, t, s, n))
  }

  lemma FollowStep(k: Kind, t: Table, s: nat, n: nat, i: nat, c: nat)
    requires 2 <= s && i < n && Followed(k, t, s, n, i, c) && forall x :: 0 <= x < |t| ==> t[x] != |t|
    ensures c < |t|
    ensures i + 1 < n ==> if t[c] == c + 1 then Followed(k, t, s, n, i + 1, t[c]) else !Linear(t, s, n - 1) && !IsRun(k, t, s, n)
    ensures i + 1 == n ==>
              if IsEoc(k, t[c]) then Followed(k, t, s, n, n, c) else Linear(t, s, n - 1) && !IsRun(k, t, s, n)
  {
    LinearStep(k, t, s, i, n);
  }

  lemma LinearStep(k: Kind, t: Table, s: nat, i: nat, n: nat)
    requires 2 <= s && i < n && Linear(t, s, i) && forall c :: 0 <= c < |t| ==> t[c] != |t|
    ensures i + 1 < n && t[s + i] == s + i + 1 ==> Linear(t, s, i + 1)
    ensures i + 1 < n && t[s + i] != s + i + 1 ==> !Linear(t, s, n - 1) && !IsRun(k, t, s, n)
    ensures i + 1 == n ==> (IsRun(k, t, s, n) <==> IsEoc(k, t[s + i]))
  {
  }

  /** The bytes of clusters, one after the other. */
  ghost function Gather(img: Bytes, vol: Vol, clusters: seq<nat>): Bytes
    requires Holds(img, vol) && forall i :: 0 <= i < |clusters| ==> 2 <= clusters[i] < Entries(vol)
  {
    if clusters == [] then []
    else
      RunRoom(img, vol, clusters[0], 1, 0);
      img[ClusterOff(vol, clusters[0])..ClusterOff(vol, clusters[0] + 1)] + Gather(img, vol, clusters[1..])
  }

  lemma {:induction false} GatherRun(img: Bytes, vol: Vol, s: nat, n: nat, clusters: seq<nat>)
    requires Holds(img, vol) && s >= 2 && clusters == seq(n, i => s + i) && s + n <= Entries(vol)
    ensures ClusterOff(vol, s) <= ClusterOff(vol, s + n) <= |img|
    ensures Gather(img, vol, clusters) == img[ClusterOff(vol, s)..ClusterOff(vol, s + n)]
    decreases n
  {
    RunRoom(img, vol, s, n, 0);
    if n > 0 {
      GatherRun(img, vol, s + 1, n - 1, clusters[1..]);
      ClusterOrder(vol, s, s + 1);
      Joined(img, ClusterOff(vol, s), ClusterOff(vol, s + 1), ClusterOff(vol, s + n));
    }
  }

  /** A file whose run is accepted reads, in one piece, what following its chain gathers. */
  lemma LocatedReadsChain(img: Bytes, vol: Vol, f: Found, chain: seq<nat>)
    requires Holds(img, vol) && f.cluster >= 2 && f.size > 0 && LocatedAt(vol, Fat(img, vol), f).Ok?
    requires chain == Walk(vol.kind, Fat(img, vol), f.cluster, |Fat(img, vol)|)
    ensures InRange(img, vol, f) && |chain| == ClustersNeeded(f.size, ClusterBytes(vol))
    ensures f.size <= |Gather(img, vol, chain)| && Content(img, vol, f) == Gather(img, vol, chain)[..f.size]
    ensures var at := LocatedAt(vol, Fat(img, vol), f).value;
            at.size == f.size && at.dataOff + at.size <= |img| && img[at.dataOff..at.dataOff + at.size] == Content(img, vol, f)
  {
    var n, s := ClustersNeeded(f.size, ClusterBytes(vol)), f.cluster;
    RunWalks(vol.kind, Fat(img, vol), s, n, |Fat(img, vol)|);
    GatherRun(img, vol, s, n, chain);
    NeededCovers(f.size, ClusterBytes(vol));
    RunBytes(vol, s, n);
  }

  lemma {:induction false} WalkIsRun(k: Kind, t: Table, s: nat, n: nat, fuel: nat)
    requires n > 0 && 2 <= s && s + n <= |t| && Walk(k, t, s, fuel) == seq(n, i => s + i) && IsEoc(k, t[s + n - 1])
    ensures IsRun(k, t, s, n)
    decreases n
  {
    if n > 1 {
      var rest := Walk(k, t, t[s], fuel - 1);
      assert Walk(k, t, s, fuel) == [s] + rest;
      assert rest == seq(n - 1, i => s + 1 + i) by {
        assert rest == Walk(k, t, s, fuel)[1..];
      }
      assert t[s] == rest[0] == s + 1;
      WalkIsRun(k, t, s + 1, n - 1, fuel - 1);
    }
  }

  lemma NeededOnce(size: nat, d: nat, n: nat)
    requires size > 0 && d > 0 && n > 0 && (n - 1) * d < size <= n * d
    ensures ClustersNeeded(size, d) == n
  {
    NeededCovers(size, d);
    var m := ClustersNeeded(size, d);
    if m < n {
      MulMono(m, n - 1, d);
    } else if n < m {
      MulMono(n, m - 1, d);
    }
  }

  /** A file is accepted exactly when it is empty or its chain is the clusters one after the other from its first on, as many
      as its size takes, the last with an end mark. */
  lemma LocatedIff(vol: Vol, t: Table, f: Found, n: nat)
    requires vol.spc > 0 && Numbered(vol.kind, t) && f.size > 0 && 2 <= f.cluster < |t|
    requires n > 0 && (n - 1) * (512 * vol.spc) < f.size <= n * (512 * vol.spc)
    ensures LocatedAt(vol, t, f).Ok? <==>
            && Walk(vol.kind, t, f.cluster, |t|) == seq(n, i => f.cluster + i)
            && f.cluster + n <= |t| && t[f.cluster + n - 1] >= if vol.kind.Fat16? then 0xfff8 else 0x0fff_fff8
  {
    NeededOnce(f.size, ClusterBytes(vol), n);
    if IsRun(vol.kind, t, f.cluster, n) {
      RunWalks(vol.kind, t, f.cluster, n, |t|);
    } else if Walk(vol.kind, t, f.cluster, |t|) == seq(n, i => f.cluster + i) && f.cluster + n <= |t| && IsEoc(vol.kind, t[f.cluster + n - 1]) {
      WalkIsRun(vol.kind, t, f.cluster, n, |t|);
    }
  }

  // ---------------------------------------------------------------- what other writes leave

  /** A slot of the root directory is in no cluster of another chain. */
  lemma SlotElsewhere(img: Bytes, vol: Vol, secs: seq<nat>, i: nat, c: Cluster)
    requires RootHeld(img, vol) && secs == SectorsIn(img, vol, RootDir(vol)) && i < SLOTS * |secs|
    requires c < Entries(vol) && c !in ClustersOf(vol, Fat(img, vol), RootDir(vol))
    ensures SlotOff(secs, i) + SLOT <= ClusterOff(vol, c) || ClusterOff(vol, c + 1) <= SlotOff(secs, i)
  {
    SlotInside(img, secs, i);
    SectorsHome(vol, Fat(img, vol), RootDir(vol), i / SLOTS);
    HomeOutside(vol, ClustersOf(vol, Fat(img, vol), RootDir(vol)), secs[i / SLOTS], c);
  }

  lemma HomeOutside(vol: Vol, cs: seq<Cluster>, o: nat, c: Cluster)
    requires Home(vol, cs, o) && c !in cs
    ensures o + SECTOR <= ClusterOff(vol, c) || ClusterOff(vol, c + 1) <= o
  {
    if x :| x in cs && ClusterOff(vol, x) <= o && o + SECTOR <= ClusterOff(vol, x + 1) {
      if x < c {
        ClusterOrder(vol, x + 1, c);
      } else {
        ClusterOrder(vol, c + 1, x);
      }
    } else {
      RunBytes(vol, c, 0);
    }
  }

  lemma {:induction false} SameWalk(k: Kind, t: Table, u: Table, c: nat, fuel: nat, cs: seq<nat>)
    requires |t| == |u| && cs == Walk(k, t, c, fuel) && forall i :: 0 <= i < |cs| ==> u[cs[i]] == t[cs[i]]
    ensures Walk(k, u, c, fuel) == cs
    decreases fuel
  {
    if !(fuel == 0 || c < 2 || c >= |t|) {
      assert cs[0] == c && cs[1..] == Walk(k, t, t[c], fuel - 1);
      SameWalk(k, t, u, t[c], fuel - 1, cs[1..]);
    }
  }

  lemma {:induction false} SameGather(was: Bytes, now: Bytes, vol: Vol, cs: seq<nat>)
    requires Holds(was, vol) && Holds(now, vol) && |now| == |was| && forall i :: 0 <= i < |cs| ==> 2 <= cs[i] < Entries(vol)
    requires forall i :: 0 <= i < |cs| ==> SameCluster(was, now, vol, cs[i])
    ensures Gather(now, vol, cs) == Gather(was, vol, cs)
  {
    if cs != [] {
      assert SameCluster(was, now, vol, cs[0]);
      assert forall i :: 0 <= i < |cs[1..]| ==> cs[1..][i] == cs[i + 1];
      SameGather(was, now, vol, cs[1..]);
    }
  }

  lemma SameRun(was: Bytes, now: Bytes, vol: Vol, s: Cluster, n: nat)
    requires Holds(was, vol) && Holds(now, vol) && |now| == |was| && s + n <= Entries(vol)
    requires forall c :: s <= c < s + n ==> SameCluster(was, now, vol, c)
    ensures ClusterOff(vol, s) <= ClusterOff(vol, s + n) <= |was|
    ensures now[ClusterOff(vol, s)..ClusterOff(vol, s + n)] == was[ClusterOff(vol, s)..ClusterOff(vol, s + n)]
  {
    var run := seq(n, i => s + i);
    SameGather(was, now, vol, run);
    GatherRun(was, vol, s, n, run);
    GatherRun(now, vol, s, n, run);
  }

  ghost predicate SameCluster(was: Bytes, now: Bytes, vol: Vol, c: Cluster) {
    && ClusterOff(vol, c) <= ClusterOff(vol, c + 1) <= |was| == |now|
    && now[ClusterOff(vol, c)..ClusterOff(vol, c + 1)] == was[ClusterOff(vol, c)..ClusterOff(vol, c + 1)]
  }

  // ---------------------------------------------------------------- overwriting in place

  /** The whole file, padded to its size with zeros; nothing else changes, and data that do not fit change nothing. */
  method OverwriteInDir(disk: Image, vol: Vol, path: seq<Name>, name: Name, data: Bytes) returns (r: Result<nat, Error>)
    requires PathToFile(disk.img, vol, path, name)
    modifies disk
    ensures var at := Locate(old(disk.img), vol, path, name);
            if at.Err? then r == Err(at.error) && disk.img == old(disk.img)
            else if |data| > at.value.size then r == Err(OtherSize) && disk.img == old(disk.img)
            else r == Ok(at.value.size) && Padded(old(disk.img), disk.img, at.value, data)
  {
    var at := LocateInDir(disk, vol, path, name);
    if at.Err? {
      return Err(at.error);
    }
    if |data| > at.value.size {
      return Err(OtherSize);
    }
    if at.value.size == 0 {
      return Ok(0);
    }
    LocatedInside(disk.img, vol, path, name);
    WritePadded(disk, at.value, data);
    r := Ok(at.value.size);
  }

  ghost predicate Padded(before: Bytes, after: Bytes, at: Located, data: Bytes)
    requires |data| <= at.size
  {
    if at.size == 0 then after == before
    else at.dataOff + at.size <= |before| && after == Splice(before, at.dataOff, data + Fill(at.size - |data|, 0))
  }

  method WritePadded(disk: Image, at: Located, data: Bytes)
    requires |data| <= at.size && at.dataOff + at.size <= |disk.img| && at.size > 0
    modifies disk
    ensures Padded(old(disk.img), disk.img, at, data)
  {
    SpliceUp(disk.img, at.dataOff, data, Fill(at.size - |data|, 0));
    disk.WriteAt(at.dataOff, data);
    disk.WriteFill(at.dataOff + |data|, at.size - |data|, 0);
  }

  lemma LocatedInside(img: Bytes, vol: Vol, path: seq<Name>, name: Name)
    requires PathToFile(img, vol, path, name) && Locate(img, vol, path, name).Ok?
    ensures var at := Locate(img, vol, path, name).value; at.size > 0 ==> at.dataOff + at.size <= |img|
  {
    var d := Resolve(img, vol, RootDir(vol), path).value;
    var f := EntryIn(img, vol, d, name, false).value;
    if f.size > 0 {
      LocatedReadsChain(img, vol, f, Walk(vol.kind, Fat(img, vol), f.cluster, |Fat(img, vol)|));
    }
  }
}
