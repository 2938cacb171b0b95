/**
 A FAT volume in an image, together with the directories and files it shows: list_dir_entries, read_in_dir,
 write_in_dir and mkdir_in_dir of xtask/src/fat32_write.rs.
 */
module FatDisk {
  import opened Base
  import opened Words
  import opened DirSlots
  import opened FatTable
  import opened Disk
  import opened FatVolume
  import opened FatFrame
  import opened FatSlots
  import opened FatListing
  import opened LongNames
  import opened FatTree
  import opened FatShown
  import opened FatCopy
  import FatFiles
  import FatWrite
  import LongNameDir

  /** No link names the cluster after the last. */
  ghost predicate LinksKnown(img: Bytes, vol: Vol) {
    Holds(img, vol) && forall x :: 0 <= x < Entries(vol) ==> Fat(img, vol)[x] != Entries(vol)
  }

  /** A file can be written when its directory is there and has no file of that name, the file is not empty, a run of
      free clusters is long enough and the directory has room for the entry with its long name. */
  ghost predicate CanWrite(img: Bytes, vol: Vol, fs: Fs, root: nat, path: seq<Name>, name: Name, data: Bytes, lfn: Option<Long>) {
    var c := Resolve(fs, root, path);
    && Holds(img, vol) && c.Some? && Search(fs.dirs[c.value], 0, name, false).None? && data != []
    && !NoRun(Fat(img, vol), ClustersNeeded(|data|, ClusterBytes(vol)))
    && !LongNameDir.NoRoom(fs.dirs[c.value], Places(lfn))
  }

  /** A folder is there or can be made: a free cluster, and room for its entry. */
  ghost predicate CanMake(img: Bytes, vol: Vol, fs: Fs, root: nat, path: seq<Name>, name: Name) {
    var c := Resolve(fs, root, path);
    && Holds(img, vol) && c.Some?
    && (Search(fs.dirs[c.value], 0, name, true).Some?
        || (!NoRun(Fat(img, vol), 1) && !LongNameDir.NoRoom(fs.dirs[c.value], 1)))
  }

  /** The sectors of the directory at `c`. */
  ghost predicate ListedBy(img: Bytes, vol: Vol, c: nat, secs: seq<nat>) {
    FatFiles.DirHeld(img, vol, DirAt(c)) && secs == FatFiles.SectorsIn(img, vol, DirAt(c))
  }

  ghost predicate StillListed(was: Bytes, now: Bytes, vol: Vol, c: nat) {
    && FatFiles.DirHeld(was, vol, DirAt(c)) && FatFiles.DirHeld(now, vol, DirAt(c))
    && FatFiles.SectorsIn(now, vol, DirAt(c)) == FatFiles.SectorsIn(was, vol, DirAt(c))
  }

  /** A volume of an image, with the directories and files it shows. */
  class Volume {
    const disk: Image
    const lba: nat
    const vol: Vol
    const root: nat
    ghost var fs: Fs

    /** The picture is right; folded, see `PictureIs`. */
    ghost predicate Valid()
      reads this, disk
    {
      Pictures(fs)
    }

    ghost predicate Pictures(f: Fs)
      reads disk
    {
      PicturedFolded(disk.img, lba, vol, root, f, FOLDS)
    }

    lemma Open()
      ensures Valid() == Pictured(disk.img, lba, vol, root, fs)
    {
      PictureIs(disk.img, lba, vol, root, fs, FOLDS);
    }

    constructor (disk: Image, lba: nat, vol: Vol, root: nat, ghost fs: Fs)
      requires Pictured(disk.img, lba, vol, root, fs)
      ensures Valid() && this.disk == disk && this.vol == vol && this.root == root && this.fs == fs
    {
      this.disk, this.lba, this.vol, this.root, this.fs := disk, lba, vol, root, fs;
      new;
      Open();
    }

    method Directory(path: seq<Name>) returns (r: Option<Dir>)
      requires Valid() && Reaches(fs, root, path)
      ensures r == match Resolve(fs, root, path) case None => None case Some(c) => Some(DirAt(c))
      ensures Pictured(disk.img, lba, vol, root, fs)
    {
      Open();
      PathShown(disk.img, vol, fs, root, path);
      r := FatFiles.ResolveDir(disk, vol, path);
    }

    method ListDir(path: seq<Name>) returns (r: Option<seq<DirEnt>>)
      requires Valid() && Reaches(fs, root, path)
      ensures r == match Resolve(fs, root, path) case None => None case Some(c) => Some(List(fs.dirs[c], 0, []))
    {
      var d := Directory(path);
      if d.None? {
        return None;
      }
      var ents := LongNameDir.ListDirEntries(disk, vol, d.value);
      r := Some(ents);
    }

    /** A file is read exactly when it is found and its clusters are contiguous. */
    method ReadIn(path: seq<Name>, name: Name, ghost data: Bytes) returns (r: Option<Bytes>)
      requires Valid() && Reaches(fs, root, path) && LinksKnown(disk.img, vol)
      requires Known(fs, Resolve(fs, root, path), name, data)
      ensures r.Some? ==> r.value == data && FoundIn(fs, Resolve(fs, root, path), name, data)
      ensures r.Some? <==> FatFiles.PathToFile(disk.img, vol, path, name) && FatFiles.Locate(disk.img, vol, path, name).Ok?
    {
      Open();
      PathLocated(disk.img, vol, root, fs, path, name, data);
      var at := FatFiles.LocateInDir(disk, vol, path, name);
      if at.Err? {
        return None;
      }
      var buf := ReadLocated(disk, at.value, data);
      r := Some(buf);
    }

    /** The directory at the end of the path, its sectors, and whether it has an entry of that name. */
    method LookIn(path: seq<Name>, name: Name, wantDir: bool) returns (d: Option<Dir>, secs: seq<nat>, found: bool)
      requires Valid() && Reaches(fs, root, path)
      ensures d == match Resolve(fs, root, path) case None => None case Some(c) => Some(DirAt(c))
      ensures Valid() && Holds(disk.img, vol)
      ensures d.Some? ==>
                var c := Resolve(fs, root, path).value;
                ListedBy(disk.img, vol, c, secs) && (found <==> Search(fs.dirs[c], 0, name, wantDir).Some?)
      ensures d.Some? && (vol.kind.Fat32? || path != []) ==> d == Some(At(Resolve(fs, root, path).value)) && d.value.cluster >= 2
    {
      secs, found := [], false;
      d := Directory(path);
      if d.Some? {
        ghost var c := Resolve(fs, root, path).value;
        if vol.kind.Fat32? || path != [] {
          ResolveFar(fs, root, path);
        }
        secs := FatFiles.ListDir(disk, vol, d.value);
        EntryShown(disk.img, vol, c, fs.dirs[c], name, wantDir);
        var f := FindEntryLoc(disk, secs, name, wantDir);
        found := f.Some?;
      }
    }

    method WriteIn(path: seq<Name>, name: Name, data: Bytes, lfn: Option<Long>) returns (ok: bool, ghost s: Step)
      requires Valid() && Reaches(fs, root, path) && (lfn.Some? ==> |lfn.value| <= UNITS * NUMBERED)
      modifies this, disk
      ensures Valid()
      ensures if ok then Wrote(old(fs), fs, root, path, name, data, KernelName(name, lfn), s) else fs == old(fs)
      ensures ok <==> CanWrite(old(disk.img), vol, old(fs), root, path, name, data, KernelName(name, lfn))
      ensures ok ==> Marks(old(disk.img), disk.img, vol, s.k, ClustersNeeded(|data|, ClusterBytes(vol)))
    {
      var long := KernelName(name, lfn);
      s := Step(0, 0, [], 0, []);
      var d, secs, found := LookIn(path, name, false);
      if d.None? || found || data == [] {
        return false, s;
      }
      ghost var c := Resolve(fs, root, path).value;
      ok, s := MakeFile(secs, c, name, data, long);
      if ok {
        fs := Fs(fs.dirs[c := s.now], fs.files[s.k := data]);
      }
    }

    /** The bytes in the first free run, then the entry in the directory at `c`, whose sectors are `secs`. */
    method MakeFile(secs: seq<nat>, ghost c: nat, name: Name, data: Bytes, long: Option<Long>) returns (ok: bool, ghost s: Step)
      requires Valid() && Holds(disk.img, vol) && c in fs.dirs && data != []
      requires ListedBy(disk.img, vol, c, secs) && (long.Some? ==> |long.value| <= UNITS * NUMBERED)
      modifies disk
      ensures if ok then Pictures(Fs(fs.dirs[c := s.now], fs.files[s.k := data])) else Valid()
      ensures ok ==>
                && s.c == c && 2 <= s.k < 0x1000_0000 && s.k !in fs.dirs && s.k !in fs.files
                && LongNameDir.Installed(fs.dirs[c], s.now, name, s.k, |data|, FILE_ATTR, long, s.start, s.ents)
                && Marks(old(disk.img), disk.img, vol, s.k, ClustersNeeded(|data|, ClusterBytes(vol)))
      ensures ok <==> !NoRun(old(Fat(disk.img, vol)), ClustersNeeded(|data|, ClusterBytes(vol)))
                      && !LongNameDir.NoRoom(fs.dirs[c], Places(long))
    {
      ghost var was := disk.img;
      Open();
      s := Step(0, 0, [], 0, []);
      var k;
      ghost var fb;
      k, fb := FatWrite.Store(disk, vol, data);
      if k.None? {
        Open();
        return false, s;
      }
      ghost var more := fs.(files := fs.files[k.value := data]);
      NewFile(was, disk.img, lba, vol, root, fs, data, k.value, fb, c, more);
      ghost var slots, start, ents;
      ok, slots, start, ents := Install(disk, lba, vol, root, more, c, secs, name, k.value, |data|, FILE_ATTR, long);
      s := Step(c, k.value, slots, start, ents);
      assert Fs(fs.dirs[c := s.now], fs.files[s.k := data]) == more.(dirs := more.dirs[c := slots]);
      PictureIs(disk.img, lba, vol, root, Fs(fs.dirs[c := s.now], fs.files[s.k := data]), FOLDS);
      Open();
    }

    /** A folder that exists is left as it is. The parent has a number: it is not the fixed root area of a FAT16 volume. */
    method MkdirIn(path: seq<Name>, name: Name) returns (ok: bool, ghost s: Step, ghost folder: seq<Slot>)
      requires Valid() && Reaches(fs, root, path) && (vol.kind.Fat32? || path != [])
      modifies this, disk
      ensures Valid()
      ensures !ok ==> fs == old(fs)
      ensures ok ==>
                var c := Resolve(old(fs), root, path);
                && c.Some?
                && if Search(old(fs).dirs[c.value], 0, name, true).Some? then fs == old(fs)
                   else Made(old(fs), fs, root, path, name, s, folder)
      ensures ok <==> CanMake(old(disk.img), vol, old(fs), root, path, name)
      ensures ok && fs != old(fs) ==> Marks(old(disk.img), disk.img, vol, s.k, 1) && |folder| == SLOTS * vol.spc
    {
      s, folder := Step(0, 0, [], 0, []), [];
      var d, secs, found := LookIn(path, name, true);
      if d.None? {
        return false, s, folder;
      }
      ghost var c := Resolve(fs, root, path).value;
      if found {
        return true, s, folder;
      }
      ok, s, folder := MakeFolder(secs, d.value.cluster, name);
      if ok {
        fs := Fs(fs.dirs[s.k := folder][c := s.now], fs.files);
      }
    }

    /** The new folder, then its entry in the parent, whose sectors are `secs`. */
    method MakeFolder(secs: seq<nat>, parent: nat, name: Name) returns (ok: bool, ghost s: Step, ghost folder: seq<Slot>)
      requires Valid() && Holds(disk.img, vol) && parent in fs.dirs && parent >= 2
      requires ListedBy(disk.img, vol, parent, secs)
      modifies disk
      ensures if ok then Pictures(Fs(fs.dirs[s.k := folder][parent := s.now], fs.files)) else Valid()
      ensures ok ==>
                && s.c == parent && 2 <= s.k < 0x1000_0000 && s.k !in fs.dirs && s.k !in fs.files
                && NewFolder(folder, s.k, parent) && s.ents == []
                && LongNameDir.Installed(fs.dirs[parent], s.now, name, s.k, 0, DIR_ATTR, None, s.start, s.ents)
      ensures ok <==> !NoRun(old(Fat(disk.img, vol)), 1) && !LongNameDir.NoRoom(fs.dirs[parent], 1)
      ensures ok ==> Marks(old(disk.img), disk.img, vol, s.k, 1) && |folder| == SLOTS * vol.spc
    {
      Open();
      s := Step(0, 0, [], 0, []);
      var k;
      k, folder := MakeEmpty(disk, lba, vol, root, fs, parent, secs);
      if k.None? {
        Open();
        return false, s, folder;
      }
      ghost var made := fs.(dirs := fs.dirs[k.value := folder]);
      ghost var slots, start, ents;
      ok, slots, start, ents := Install(disk, lba, vol, root, made, parent, secs, name, k.value, 0, DIR_ATTR, None);
      if !ok {
        Fewer(disk.img, lba, vol, root, fs, k.value, folder);
        Open();
        return;
      }
      s := Step(parent, k.value, slots, start, ents);
      Joined(made, parent, slots);
    }

    lemma Joined(made: Fs, c: nat, slots: seq<Slot>)
      requires Pictured(disk.img, lba, vol, root, made.(dirs := made.dirs[c := slots]))
      ensures Pictures(Fs(made.dirs[c := slots], made.files))
    {
      PictureIs(disk.img, lba, vol, root, Fs(made.dirs[c := slots], made.files), FOLDS);
    }
  }

  /** A new folder that is nobody's yet. */
  method MakeEmpty(disk: Image, ghost lba: nat, vol: Vol, ghost root: nat, ghost fs: Fs, parent: nat, ghost secs: seq<nat>)
    returns (k: Option<nat>, ghost folder: seq<Slot>)
    requires Pictured(disk.img, lba, vol, root, fs) && parent in fs.dirs && parent >= 2
    requires ListedBy(disk.img, vol, parent, secs)
    modifies disk
    ensures k.None? <==> NoRun(old(Fat(disk.img, vol)), 1)
    ensures k.None? ==> Pictured(disk.img, lba, vol, root, fs)
    ensures k.Some? ==>
              && 2 <= k.value < 0x1000_0000 && k.value !in fs.dirs && k.value !in fs.files
              && NewFolder(folder, k.value, parent)
              && Pictured(disk.img, lba, vol, root, fs.(dirs := fs.dirs[k.value := folder]))
              && ListedBy(disk.img, vol, parent, secs)
              && Marks(old(disk.img), disk.img, vol, k.value, 1) && |folder| == SLOTS * vol.spc
  {
    folder := [];
    k := BlankFolder(disk, lba, vol, root, fs, parent, secs);
    if k.None? {
      return;
    }
    ghost var blank := fs.(dirs := fs.dirs[k.value := Blank(SLOTS * vol.spc)]);
    var ok;
    ok, folder := FillFolder(disk, lba, vol, root, blank, k.value, parent);
    SetTwice(fs, k.value, Blank(SLOTS * vol.spc), folder);
    if !ok {
      k := None;
    }
  }

  method BlankFolder(disk: Image, ghost lba: nat, vol: Vol, ghost root: nat, ghost fs: Fs, ghost parent: nat, ghost secs: seq<nat>)
    returns (k: Option<nat>)
    requires Pictured(disk.img, lba, vol, root, fs) && parent in fs.dirs
    requires ListedBy(disk.img, vol, parent, secs)
    modifies disk
    ensures k.None? <==> NoRun(old(Fat(disk.img, vol)), 1)
    ensures k.None? ==> disk.img == old(disk.img)
    ensures k.Some? ==>
              && 2 <= k.value < 0x1000_0000 && k.value !in fs.dirs && k.value !in fs.files
              && Pictured(disk.img, lba, vol, root, fs.(dirs := fs.dirs[k.value := Blank(SLOTS * vol.spc)]))
              && ListedBy(disk.img, vol, parent, secs)
              && Marks(old(disk.img), disk.img, vol, k.value, 1)
  {
    ghost var was := disk.img;
    ghost var fb;
    k, fb := StoreBlank(disk, vol);
    if k.Some? {
      FolderStored(was, disk.img, lba, vol, root, fs, k.value, fb, parent);
    }
  }

  lemma SetTwice(fs: Fs, k: nat, a: seq<Slot>, b: seq<Slot>)
    ensures var once := fs.(dirs := fs.dirs[k := a]); once.(dirs := once.dirs[k := b]) == fs.(dirs := fs.dirs[k := b])
  {
    assert fs.dirs[k := a][k := b] == fs.dirs[k := b];
  }

  method ReadLocated(disk: Image, at: FatFiles.Located, ghost data: Bytes) returns (buf: Bytes)
    requires AtReads(disk.img, at, data)
    ensures buf == data
  {
    if at.size == 0 {
      return [];
    }
    buf := disk.ReadAt(at.dataOff, at.dataOff + at.size);
  }

  /** Clears the first free cluster and marks it, in both tables. */
  method StoreBlank(disk: Image, vol: Vol) returns (r: Option<nat>, ghost fb: Bytes)
    requires Holds(disk.img, vol)
    modifies disk
    ensures r.None? ==> NoRun(old(Fat(disk.img, vol)), 1) && disk.img == old(disk.img)
    ensures r.Some? ==> FatWrite.Stored(old(disk.img), disk.img, vol, Fill(ClusterBytes(vol), 0), r.value, fb)
  {
    ghost var was, z := disk.img, Fill(ClusterBytes(vol), 0);
    var fat := FatFiles.LoadFat(disk, vol);
    r := FindRun(vol.kind, fat, 1);
    fb := [];
    if r.None? {
      return;
    }
    MarkRun(vol.kind, fat, r.value, 1);
    fb := fat[..];
    OneCluster(ClusterBytes(vol));
    InRunHolds(was, vol, fb, r.value, 1, z);
    WriteFats(disk, vol, fat);
    disk.WriteFill(ClusterOff(vol, r.value), ClusterBytes(vol), 0);
  }

  /** A new folder in its cleared cluster: the two dot entries. */
  method FillFolder(disk: Image, ghost lba: nat, vol: Vol, ghost root: nat, ghost fs: Fs, k: nat, parent: nat)
    returns (ok: bool, ghost folder: seq<Slot>)
    requires k >= 2 && k in fs.dirs && Pictured(disk.img, lba, vol, root, fs) && fs.dirs[k] == Blank(SLOTS * vol.spc)
    modifies disk
    ensures ok && NewFolder(folder, k, parent) && |folder| == SLOTS * vol.spc
    ensures Pictured(disk.img, lba, vol, root, fs.(dirs := fs.dirs[k := folder])) && SameTable(old(disk.img), disk.img, vol)
  {
    folder := fs.dirs[k];
    assert fs.dirs[k := folder] == fs.dirs;
    var secs := FatFiles.ListDir(disk, vol, At(k));
    ghost var one, a, e;
    DotsFit(vol, fs.dirs[k]);
    ok, one, a, e := Install(disk, lba, vol, root, fs, k, secs, DOT, k, 0, DIR_ATTR, None);
    if ok {
      SecondFits(vol, one, k, a);
      ok, folder := SecondDot(disk, lba, vol, root, fs, k, parent, secs, one, a);
    }
  }

  method SecondDot(disk: Image, ghost lba: nat, vol: Vol, ghost root: nat, ghost fs: Fs, k: nat, parent: nat, secs: seq<nat>,
                   ghost one: seq<Slot>, ghost a: nat) returns (ok: bool, ghost folder: seq<Slot>)
    requires k in fs.dirs && Pictured(disk.img, lba, vol, root, fs.(dirs := fs.dirs[k := one]))
    requires ListedBy(disk.img, vol, k, secs)
    requires LongNameDir.Installed(Blank(SLOTS * vol.spc), one, DOT, k, 0, DIR_ATTR, None, a, [])
    requires !LongNameDir.NoRoom(one, 1)
    modifies disk
    ensures ok && NewFolder(folder, k, parent) && |folder| == SLOTS * vol.spc
    ensures Pictured(disk.img, lba, vol, root, fs.(dirs := fs.dirs[k := folder])) && SameTable(old(disk.img), disk.img, vol)
  {
    folder := one;
    ghost var two, b, e;
    ok, two, b, e := Install(disk, lba, vol, root, fs.(dirs := fs.dirs[k := one]), k, secs, DOTDOT, parent, 0, DIR_ATTR, None);
    if ok {
      folder := two;
      SetTwice(fs, k, one, two);
      IsNewFolder(SLOTS * vol.spc, one, two, k, parent, a, b);
    }
  }

  /** A cleared cluster has room for the two dot entries. */
  lemma DotsFit(vol: Vol, slots: seq<Slot>)
    requires vol.spc > 0 && slots == Blank(SLOTS * vol.spc)
    ensures Room(slots, 0, 1) && !LongNameDir.NoRoom(slots, 1)
  {
  }

  lemma SecondFits(vol: Vol, one: seq<Slot>, k: nat, a: nat)
    requires vol.spc > 0 && LongNameDir.Installed(Blank(SLOTS * vol.spc), one, DOT, k, 0, DIR_ATTR, None, a, [])
    ensures !LongNameDir.NoRoom(one, 1)
  {
    DotsFit(vol, Blank(SLOTS * vol.spc));
    assert a == 0 && one[1] == Zeros(32);
    assert Room(one, 1, 1);
  }

  lemma OnlyRun(t: Table, s: nat, n: nat)
    requires FirstRun(t, s, n)
    ensures !NoRun(t, n)
  {
  }

  lemma IsNewFolder(n: nat, one: seq<Slot>, two: seq<Slot>, k: nat, parent: nat, a: nat, b: nat)
    requires LongNameDir.Installed(Blank(n), one, DOT, k, 0, DIR_ATTR, None, a, [])
    requires LongNameDir.Installed(one, two, DOTDOT, parent, 0, DIR_ATTR, None, b, [])
    ensures NewFolder(two, k, parent)
  {
    assert n > 0 by {
      assert |one| == n;
    }
  }

  /** install_entry_in_dir on a volume whose picture is known. */
  method Install(disk: Image, ghost lba: nat, vol: Vol, ghost root: nat, ghost fs: Fs, ghost c: nat, secs: seq<nat>, name: Name,
                 cluster: nat, size: nat, attr: byte, lfn: Option<Long>)
    returns (ok: bool, ghost slots: seq<Slot>, ghost start: nat, ghost ents: seq<Slot>)
    requires Pictured(disk.img, lba, vol, root, fs) && c in fs.dirs && ListedBy(disk.img, vol, c, secs)
    requires lfn.Some? ==> |lfn.value| <= UNITS * NUMBERED
    modifies disk
    ensures !ok ==> disk.img == old(disk.img)
    ensures ok <==> !LongNameDir.NoRoom(fs.dirs[c], Places(lfn))
    ensures ok ==> LongNameDir.Installed(fs.dirs[c], slots, name, cluster, size, attr, lfn, start, ents)
    ensures ok ==> Pictured(disk.img, lba, vol, root, fs.(dirs := fs.dirs[c := slots])) && SameTable(old(disk.img), disk.img, vol)
  {
    ghost var mid := disk.img;
    Installable(mid, lba, vol, root, fs, c, secs);
    ok, start, ents := LongNameDir.InstallEntryInDir(disk, secs, name, cluster, size, attr, lfn);
    slots := Slots(disk.img, secs);
    assert |ents| + 1 == Places(lfn);
    if ok {
      assert Room(fs.dirs[c], start, Places(lfn));
      EntryInstalled(mid, disk.img, lba, vol, root, fs, c, secs, slots);
    }
  }

  ghost predicate SameTable(a: Bytes, b: Bytes, vol: Vol) {
    Holds(a, vol) && Holds(b, vol) && Fat(b, vol) == Fat(a, vol)
  }

  lemma Installable(img: Bytes, lba: nat, vol: Vol, root: nat, fs: Fs, c: nat, secs: seq<nat>)
    requires Pictured(img, lba, vol, root, fs) && c in fs.dirs && ListedBy(img, vol, c, secs)
    ensures SectorsInside(img, secs) && Distinct(secs) && Aligned(secs) && Slots(img, secs) == fs.dirs[c]
  {
    forall j | 0 <= j < |secs|
      ensures secs[j] % SECTOR == 0
    {
      SectorsHome(vol, Fat(img, vol), DirAt(c), j);
    }
  }

  /** The image holds the volume with these directories and files. */
  ghost predicate Pictured(img: Bytes, lba: nat, vol: Vol, root: nat, fs: Fs) {
    ReadVol(img, lba) == Ok(vol) && Shows(img, vol, fs) && root == RootNumber(vol) && root in fs.dirs
  }

  ghost predicate PicturedFolded(img: Bytes, lba: nat, vol: Vol, root: nat, fs: Fs, k: nat)
    decreases k
  {
    if k == 0 then Pictured(img, lba, vol, root, fs) else PicturedFolded(img, lba, vol, root, fs, k - 1)
  }

  lemma {:induction false} PictureIs(img: Bytes, lba: nat, vol: Vol, root: nat, fs: Fs, k: nat)
    ensures PicturedFolded(img, lba, vol, root, fs, k) == Pictured(img, lba, vol, root, fs)
    decreases k
  {
    if k > 0 {
      PictureIs(img, lba, vol, root, fs, k - 1);
    }
  }

  // ---------------------------------------------------------------- reading a known file

  /** If the name is found, it is a file with these bytes. */
  predicate Known(fs: Fs, c: Option<nat>, name: Name, data: Bytes) {
    c.Some? && c.value in fs.dirs && Search(fs.dirs[c.value], 0, name, false).Some? ==> FileIn(fs, fs.dirs[c.value], name, data)
  }

  predicate FoundIn(fs: Fs, c: Option<nat>, name: Name, data: Bytes) {
    c.Some? && c.value in fs.dirs && FileIn(fs, fs.dirs[c.value], name, data) && |data| < 0x1_0000_0000
  }

  predicate AtReads(img: Bytes, at: FatFiles.Located, data: Bytes) {
    at.size == |data| && (data != [] ==> at.dataOff + |data| <= |img| && img[at.dataOff..at.dataOff + |data|] == data)
  }

  /** The entry reads as the file's bytes if its run is accepted. */
  ghost predicate LocatedReads(img: Bytes, vol: Vol, f: Found, data: Bytes)
    requires Holds(img, vol)
  {
    match FatFiles.LocatedAt(vol, Fat(img, vol), f)
    case Err(_) => true
    case Ok(at) => AtReads(img, at, data)
  }

  lemma SlotReads(img: Bytes, vol: Vol, fs: Fs, slots: seq<Slot>, j: nat, data: Bytes)
    requires Shows(img, vol, fs) && j < |slots| && FileSize(slots[j], 0) == |data|
    requires data != [] ==> ClusterOf(slots[j]) in fs.files && fs.files[ClusterOf(slots[j])] == data
    ensures LocatedReads(img, vol, EntryOf(slots, j), data) && |data| < 0x1_0000_0000
    ensures data != [] ==> 2 <= ClusterOf(slots[j]) < Entries(vol)
  {
    FromLEBound(slots[j][28..32]);
    ExpValues();
    if data != [] {
      FirstOfChain(img, vol, ClusterOf(slots[j]), data);
      if FatFiles.LocatedAt(vol, Fat(img, vol), EntryOf(slots, j)).Ok? {
        ReadShown(img, vol, EntryOf(slots, j), data);
      }
    }
  }

  lemma FileLocated(img: Bytes, vol: Vol, fs: Fs, c: nat, name: Name, data: Bytes)
    requires Shows(img, vol, fs) && c in fs.dirs && LinksKnown(img, vol) && Known(fs, Some(c), name, data)
    ensures FatFiles.FileHeld(img, vol, DirAt(c), name)
    ensures var f := FatFiles.EntryIn(img, vol, DirAt(c), name, false);
            f.Some? ==> FoundIn(fs, Some(c), name, data) && LocatedReads(img, vol, f.value, data)
  {
    EntryShown(img, vol, c, fs.dirs[c], name, false);
    var at := Search(fs.dirs[c], 0, name, false);
    if at.Some? {
      SlotReads(img, vol, fs, fs.dirs[c], at.value, data);
    }
  }

  /** A known file is located by its path and, if it is contiguous, reads as its bytes. */
  lemma PathLocated(img: Bytes, vol: Vol, root: nat, fs: Fs, path: seq<Name>, name: Name, data: Bytes)
    requires Shows(img, vol, fs) && root == RootNumber(vol) && Reaches(fs, root, path) && LinksKnown(img, vol)
    requires Known(fs, Resolve(fs, root, path), name, data)
    ensures FatFiles.PathToFile(img, vol, path, name)
    ensures match FatFiles.Locate(img, vol, path, name)
            case Err(_) => true
            case Ok(at) => FoundIn(fs, Resolve(fs, root, path), name, data) && AtReads(img, at, data)
  {
    PathShown(img, vol, fs, root, path);
    var c := Resolve(fs, root, path);
    if c.Some? {
      FileLocated(img, vol, fs, c.value, name, data);
    }
  }

  // ---------------------------------------------------------------- pictures after a write

  lemma Fewer(img: Bytes, lba: nat, vol: Vol, root: nat, fs: Fs, k: nat, slots: seq<Slot>)
    requires Pictured(img, lba, vol, root, fs.(dirs := fs.dirs[k := slots])) && k !in fs.dirs && root in fs.dirs
    ensures Pictured(img, lba, vol, root, fs)
  {
    ShowsFewer(img, vol, fs.(dirs := fs.dirs[k := slots]), fs);
  }

  /** The picture after a cluster has been cleared for a new folder. */
  lemma FolderStored(was: Bytes, mid: Bytes, lba: nat, vol: Vol, root: nat, fs: Fs, k: nat, fb: Bytes, c: nat)
    requires Pictured(was, lba, vol, root, fs) && FatWrite.Stored(was, mid, vol, Fill(ClusterBytes(vol), 0), k, fb) && c in fs.dirs
    ensures Pictured(mid, lba, vol, root, fs.(dirs := fs.dirs[k := Blank(SLOTS * vol.spc)]))
    ensures StillListed(was, mid, vol, c)
    ensures k !in fs.dirs && k !in fs.files && 2 <= k < 0x1000_0000
    ensures Marks(was, mid, vol, k, 1) && !NoRun(Fat(was, vol), 1)
  {
    var z := Fill(ClusterBytes(vol), 0);
    OneCluster(ClusterBytes(vol));
    OnlyRun(Fat(was, vol), k, 1);
    StoredShows(was, mid, vol, z, k, fb, fs);
    StoredDir(was, mid, vol, k, fb);
    forall f | f in fs.files
      ensures k !in ChainOf(vol, Fat(mid, vol), f, |fs.files[f]|)
    {
      ChainsAvoidFree(was, mid, vol, fs, k, z, fb, f);
    }
    DirJoins(mid, vol, fs, k, Blank(SLOTS * vol.spc));
    StoredVolume(was, mid, lba, vol, z, k, fb);
  }

  /** The run at `k` was the first that is free, and is what has been marked. */
  ghost predicate Marks(was: Bytes, now: Bytes, vol: Vol, k: nat, n: nat) {
    && Holds(was, vol) && Holds(now, vol) && FirstRun(Fat(was, vol), k, n)
    && Fat(now, vol) == Marked(vol.kind, Fat(was, vol), k, n)
  }

  /** The picture `more` after the bytes of a new file have been stored; without the file it is right as well. */
  lemma NewFile(was: Bytes, mid: Bytes, lba: nat, vol: Vol, root: nat, fs: Fs, data: Bytes, k: nat, fb: Bytes, c: nat, more: Fs)
    requires Pictured(was, lba, vol, root, fs) && data != [] && FatWrite.Stored(was, mid, vol, data, k, fb) && c in fs.dirs
    requires more == fs.(files := fs.files[k := data])
    ensures Pictured(mid, lba, vol, root, fs) && Pictured(mid, lba, vol, root, more)
    ensures StillListed(was, mid, vol, c)
    ensures k !in fs.dirs && k !in fs.files && 2 <= k < 0x1000_0000
    ensures Marks(was, mid, vol, k, ClustersNeeded(|data|, ClusterBytes(vol)))
    ensures !NoRun(Fat(was, vol), ClustersNeeded(|data|, ClusterBytes(vol)))
  {
    DataStored(was, mid, lba, vol, root, fs, data, k, fb, c);
    FileStored(was, mid, lba, vol, root, fs, data, k, fb);
    StoredShows(was, mid, vol, data, k, fb, fs);
    OnlyRun(Fat(was, vol), k, ClustersNeeded(|data|, ClusterBytes(vol)));
  }

  /** The picture after the bytes of a new file have been stored: as before, and with the file. */
  lemma DataStored(was: Bytes, mid: Bytes, lba: nat, vol: Vol, root: nat, fs: Fs, data: Bytes, k: nat, fb: Bytes, c: nat)
    requires Pictured(was, lba, vol, root, fs) && data != [] && FatWrite.Stored(was, mid, vol, data, k, fb) && c in fs.dirs
    ensures Pictured(mid, lba, vol, root, fs)
    ensures StillListed(was, mid, vol, c)
    ensures k !in fs.dirs && k !in fs.files && 2 <= k < 0x1000_0000
  {
    StoredShows(was, mid, vol, data, k, fb, fs);
    StoredVolume(was, mid, lba, vol, data, k, fb);
  }

  lemma FileStored(was: Bytes, mid: Bytes, lba: nat, vol: Vol, root: nat, fs: Fs, data: Bytes, k: nat, fb: Bytes)
    requires Pictured(was, lba, vol, root, fs) && data != [] && FatWrite.Stored(was, mid, vol, data, k, fb)
    ensures Pictured(mid, lba, vol, root, fs.(files := fs.files[k := data]))
  {
    StoredShows(was, mid, vol, data, k, fb, fs);
    StoredFile(was, mid, vol, data, k, fb, seq(ClustersNeeded(|data|, ClusterBytes(vol)), i => k + i));
    FileJoins(mid, vol, fs, k, data);
    StoredVolume(was, mid, lba, vol, data, k, fb);
  }

  lemma StoredVolume(was: Bytes, mid: Bytes, lba: nat, vol: Vol, data: Bytes, k: nat, fb: Bytes)
    requires ReadVol(was, lba) == Ok(vol) && Holds(was, vol) && data != [] && FatWrite.Stored(was, mid, vol, data, k, fb)
    ensures ReadVol(mid, lba) == Ok(vol) && 2 <= k < 0x1000_0000
  {
    LaidBoot(was, mid, vol, fb, k, ClustersNeeded(|data|, ClusterBytes(vol)), data, lba);
  }

  /** The picture after an entry has been installed in a directory. */
  lemma EntryInstalled(mid: Bytes, now: Bytes, lba: nat, vol: Vol, root: nat, fs: Fs, c: nat, secs: seq<nat>, slots: seq<Slot>)
    requires Pictured(mid, lba, vol, root, fs) && c in fs.dirs && ListedBy(mid, vol, c, secs)
    requires LongNameDir.OnlyDir(mid, now, secs) && SectorsInside(now, secs) && slots == Slots(now, secs)
    ensures Pictured(now, lba, vol, root, fs.(dirs := fs.dirs[c := slots])) && SameTable(mid, now, vol)
  {
    TablesAgain(mid, now, vol, c, secs);
    VolumeKept(mid, now, lba, vol);
    InstalledShows(mid, now, vol, fs, c, secs, slots);
  }

  lemma VolumeKept(img: Bytes, now: Bytes, lba: nat, vol: Vol)
    requires ReadVol(img, lba) == Ok(vol) && |now| == |img| && vol.base + SECTOR <= |img|
    requires now[vol.base..vol.base + SECTOR] == img[vol.base..vol.base + SECTOR]
    ensures ReadVol(now, lba) == Ok(vol)
  {
    ReadVolKept(img, now, lba);
  }
}
