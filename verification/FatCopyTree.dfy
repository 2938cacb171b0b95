/**
 The recursion of copy_fat_partition (xtask/src/fat32_write.rs): after a copy that succeeds, the
 destination holds the source's tree.
 */
module FatCopyTree {
  import opened Base
  import opened DirSlots
  import opened FatVolume
  import opened FatTable
  import opened LongNames
  import opened Utf16
  import LongNameDir
  import opened FatTree
  import opened FatCopy
  import opened FatDisk
  import opened FatSpace

  /** A directory that only the two dot entries may be in. */
  ghost predicate NothingBut(slots: seq<Slot>, done: Tree) {
    forall n: Name, w: bool :: n != DOT && n != DOTDOT && !Has(done, n, w) ==> Search(slots, 0, n, w).None?
  }

  ghost predicate IsPacked(slots: seq<Slot>) {
    exists u: nat :: Packed(slots, u)
  }

  /** Since `was`, only the directory `c` and new ones have changed. */
  predicate OnlyHere(was: Fs, now: Fs, c: nat) {
    FilesKept(was, now) && forall x :: x in was.dirs ==> x in now.dirs && (x != c ==> now.dirs[x] == was.dirs[x])
  }

  /** The directory `c` at the end of `path` holds what was copied so far; everything below it is new since `was`. */
  ghost predicate ProgressNow(was: Fs, now: Fs, root: nat, path: seq<Name>, c: nat, done: Tree) {
    && c in was.dirs && OnlyHere(was, now, c)
    && Resolve(now, root, path) == Some(c) && c !in Visited(now, root, path)
    && Visited(now, root, path) <= was.dirs.Keys
    && IsPacked(now.dirs[c]) && List(now.dirs[c], 0, []) == Listing(Mapped(done))
    && Under(now, now.dirs[c], Mapped(done)) && NothingBut(now.dirs[c], done)
    && (forall x :: x in FootUnder(now, now.dirs[c], Mapped(done)) ==> x !in was.dirs)
  }

  ghost predicate ProgressFolded(was: Fs, now: Fs, root: nat, path: seq<Name>, c: nat, done: Tree, k: nat)
    decreases k
  {
    if k == 0 then ProgressNow(was, now, root, path, c, done) else ProgressFolded(was, now, root, path, c, done, k - 1)
  }

  /** The same, folded. */
  ghost predicate Progress(was: Fs, now: Fs, root: nat, path: seq<Name>, c: nat, done: Tree) {
    ProgressFolded(was, now, root, path, c, done, FOLDS)
  }

  lemma {:induction false} ProgressUnfolds(was: Fs, now: Fs, root: nat, path: seq<Name>, c: nat, done: Tree, k: nat)
    ensures ProgressFolded(was, now, root, path, c, done, k) == ProgressNow(was, now, root, path, c, done)
    decreases k
  {
    if k > 0 {
      ProgressUnfolds(was, now, root, path, c, done, k - 1);
    }
  }

  lemma ProgressIs(was: Fs, now: Fs, root: nat, path: seq<Name>, c: nat, done: Tree)
    ensures Progress(was, now, root, path, c, done) == ProgressNow(was, now, root, path, c, done)
  {
    ProgressUnfolds(was, now, root, path, c, done, FOLDS);
  }

  // ---------------------------------------------------------------- one entry more

  lemma {:induction false} FootIn(fs: Fs, slots: seq<Slot>, t: Tree)
    requires Under(fs, slots, t)
    ensures forall x :: x in FootUnder(fs, slots, t) ==> x in fs.dirs
    decreases t
  {
    match t
    case Nil =>
    case File(_, _, _, rest) => FootIn(fs, slots, rest);
    case Folder(n, _, sub, rest) =>
      FootIn(fs, slots, rest);
      FootIn(fs, fs.dirs[ClusterOf(slots[Search(slots, 0, n, true).value])], sub);
  }

  /** Everything found under the names of a tree is still found after an entry is put. */
  lemma {:induction false} PutSearches(slots: seq<Slot>, now: seq<Slot>, u: nat, ents: seq<Slot>, e: Slot, fs: Fs, t: Tree)
    requires Put(slots, now, u, ents, e) && Under(fs, slots, t)
    ensures SameSearches(slots, now, t)
    decreases t
  {
    if !t.Nil? {
      PutFinds(slots, now, u, ents, e, t.name, t.Folder?);
      PutSearches(slots, now, u, ents, e, fs, t.rest);
    }
  }

  lemma {:induction false} FootAppend(fs: Fs, slots: seq<Slot>, a: Tree, b: Tree)
    ensures FootUnder(fs, slots, Append(a, b)) == FootUnder(fs, slots, a) + FootUnder(fs, slots, b)
  {
    if !a.Nil? {
      FootAppend(fs, slots, a.rest, b);
    }
  }

  /** What putting the entry of a new name does to the directory's slots; `j` is where it is found. */
  lemma EntryPut(slots: seq<Slot>, now: seq<Slot>, name: Name, cluster: nat, size: nat, attr: byte, isDir: bool, lfn: Option<Long>,
                 start: nat, ents: seq<Slot>, done: Tree) returns (u: nat, e: Slot, j: nat)
    requires lfn.Some? ==> |lfn.value| <= UNITS * MAX_PARTS && Plain(lfn.value) && Paired(lfn.value)
    requires LongNameDir.Installed(slots, now, name, cluster, size, attr, lfn, start, ents) && isDir == IsDir(attr)
    requires IsPacked(slots) && Shown(name, attr) && cluster < 0x1_0000_0000 && size < 0x1_0000_0000
    requires Search(slots, 0, name, isDir).None? && NothingBut(slots, done)
    ensures IsPacked(now) && Put(slots, now, u, ents, e)
    ensures List(now, 0, []) == List(slots, 0, []) + [DirEnt(name, isDir, lfn)]
    ensures j < |now| && Search(now, 0, name, isDir) == Some(j)
    ensures ClusterOf(now[j]) == cluster && FileSize(now[j], 0) == size
    ensures NothingElseIn(now, done, name, isDir)
  {
    u, e := EntryAppended(slots, now, name, cluster, size, attr, isDir, lfn, start, ents);
    PutFinds(slots, now, u, ents, e, name, isDir);
    j := u + |ents|;
    PutNothingElse(slots, now, u, ents, e, done, name, isDir);
  }

  /** The entry and its parts go to the end of the used slots and of the listing. */
  lemma EntryAppended(slots: seq<Slot>, now: seq<Slot>, name: Name, cluster: nat, size: nat, attr: byte, isDir: bool,
                      lfn: Option<Long>, start: nat, ents: seq<Slot>) returns (u: nat, e: Slot)
    requires lfn.Some? ==> |lfn.value| <= UNITS * MAX_PARTS && Plain(lfn.value) && Paired(lfn.value)
    requires LongNameDir.Installed(slots, now, name, cluster, size, attr, lfn, start, ents) && isDir == IsDir(attr)
    requires IsPacked(slots) && Shown(name, attr) && cluster < 0x1_0000_0000 && size < 0x1_0000_0000
    ensures IsPacked(now) && Put(slots, now, u, ents, e) && e[..11] == name && IsDir(e[11]) == isDir
    ensures List(now, 0, []) == List(slots, 0, []) + [DirEnt(name, isDir, lfn)]
    ensures ClusterOf(e) == cluster && FileSize(e, 0) == size
  {
    u :| Packed(slots, u);
    e := EntrySlot(name, attr, cluster, size);
    InstalledPut(slots, now, name, cluster, size, attr, lfn, start, ents, u);
    PutPacked(slots, now, u, ents, e);
    PutListed(slots, now, u, ents, e, DirEnt(name, isDir, lfn));
    EntryFields(name, attr, cluster, size);
  }

  lemma PutNothingElse(slots: seq<Slot>, now: seq<Slot>, u: nat, ents: seq<Slot>, e: Slot, done: Tree, name: Name, isDir: bool)
    requires Put(slots, now, u, ents, e) && NothingBut(slots, done) && e[..11] == name && IsDir(e[11]) == isDir
    ensures NothingElseIn(now, done, name, isDir)
  {
    forall n: Name, w: bool | n != DOT && n != DOTDOT && !Has(done, n, w) && (n != name || w != isDir)
      ensures Search(now, 0, n, w).None?
    {
      PutFinds(slots, now, u, ents, e, n, w);
    }
  }

  /** Besides what was copied and this name, a directory finds nothing. */
  ghost predicate NothingElseIn(now: seq<Slot>, done: Tree, name: Name, isDir: bool) {
    forall n: Name, w: bool :: n != DOT && n != DOTDOT && !Has(done, n, w) && (n != name || w != isDir) ==>
      Search(now, 0, n, w).None?
  }

  /** The path still leads to the directory after changes in it and in new ones. */
  lemma PathStays(fs: Fs, now: Fs, root: nat, path: seq<Name>, c: nat)
    requires Resolve(fs, root, path) == Some(c) && c !in Visited(fs, root, path) && OnlyHere(fs, now, c)
    ensures Resolve(now, root, path) == Some(c) && Visited(now, root, path) == Visited(fs, root, path)
  {
    ResolveKept(fs, now, root, path);
  }

  /** What was copied is still there after an entry is put into the directory and its surroundings grow. */
  lemma DoneStays(was: Fs, fs: Fs, now: Fs, root: nat, path: seq<Name>, c: nat, done: Tree, u: nat, ents: seq<Slot>, e: Slot)
    requires ProgressNow(was, fs, root, path, c, done) && OnlyHere(fs, now, c) && c in now.dirs
    requires Put(fs.dirs[c], now.dirs[c], u, ents, e)
    ensures Under(now, now.dirs[c], Mapped(done))
    ensures FootUnder(now, now.dirs[c], Mapped(done)) == FootUnder(fs, fs.dirs[c], Mapped(done))
  {
    PutSearches(fs.dirs[c], now.dirs[c], u, ents, e, fs, Mapped(done));
    FootIn(fs, fs.dirs[c], Mapped(done));
    UnderKept(fs, now, fs.dirs[c], now.dirs[c], Mapped(done));
  }

  /** One entry more: what remains to be shown is that the entry itself holds its contents. */
  lemma StepDone(was: Fs, fs: Fs, now: Fs, root: nat, path: seq<Name>, c: nat, done: Tree, one: Tree, u: nat, ents: seq<Slot>, e: Slot)
    requires ProgressNow(was, fs, root, path, c, done) && OnlyHere(fs, now, c) && c in now.dirs
    requires Put(fs.dirs[c], now.dirs[c], u, ents, e) && IsPacked(now.dirs[c])
    requires List(now.dirs[c], 0, []) == List(fs.dirs[c], 0, []) + Listing(Mapped(one))
    requires Under(now, now.dirs[c], Mapped(one)) && NothingBut(now.dirs[c], Append(done, one))
    requires forall x :: x in FootUnder(now, now.dirs[c], Mapped(one)) ==> x !in was.dirs
    ensures ProgressNow(was, now, root, path, c, Append(done, one))
  {
    PathStays(fs, now, root, path, c);
    DoneStays(was, fs, now, root, path, c, done, u, ents, e);
    Joined(now, now.dirs[c], done, one);
  }

  lemma NothingElse(now: seq<Slot>, done: Tree, one: Tree, name: Name, isDir: bool)
    requires Has(one, name, isDir) && NothingElseIn(now, done, name, isDir)
    ensures NothingBut(now, Append(done, one))
  {
    forall n: Name, w: bool | n != DOT && n != DOTDOT && !Has(Append(done, one), n, w)
      ensures Search(now, 0, n, w).None?
    {
      Appended(done, one, n, w);
    }
  }

  /** A file more. */
  lemma FileAdded(was: Fs, fs: Fs, now: Fs, root: nat, path: seq<Name>, c: nat, done: Tree, name: Name, lfn: Option<Long>,
                  data: Bytes, s: Step)
    requires ProgressNow(was, fs, root, path, c, done) && GoodName(name, lfn) && |data| < 0x1_0000_0000
    requires KernelName(name, lfn).Some? ==> |KernelName(name, lfn).value| <= UNITS * MAX_PARTS
    requires Wrote(fs, now, root, path, name, data, KernelName(name, lfn), s)
    ensures ProgressNow(was, now, root, path, c, Append(done, File(name, lfn, data, Nil)))
  {
    var one := File(name, lfn, data, Nil);
    var u, e := FilePut(fs, now, root, path, c, done, one, name, lfn, data, s);
    StepDone(was, fs, now, root, path, c, done, one, u, s.ents, e);
  }

  lemma FilePut(fs: Fs, now: Fs, root: nat, path: seq<Name>, c: nat, done: Tree, one: Tree, name: Name, lfn: Option<Long>,
                data: Bytes, s: Step) returns (u: nat, e: Slot)
    requires Resolve(fs, root, path) == Some(c) && IsPacked(fs.dirs[c]) && NothingBut(fs.dirs[c], done)
    requires GoodName(name, lfn) && |data| < 0x1_0000_0000 && one == File(name, lfn, data, Nil)
    requires KernelName(name, lfn).Some? ==> |KernelName(name, lfn).value| <= UNITS * MAX_PARTS
    requires Wrote(fs, now, root, path, name, data, KernelName(name, lfn), s)
    ensures OnlyHere(fs, now, c) && c in now.dirs && Put(fs.dirs[c], now.dirs[c], u, s.ents, e) && IsPacked(now.dirs[c])
    ensures List(now.dirs[c], 0, []) == List(fs.dirs[c], 0, []) + Listing(Mapped(one))
    ensures Under(now, now.dirs[c], Mapped(one)) && NothingBut(now.dirs[c], Append(done, one))
    ensures FootUnder(now, now.dirs[c], Mapped(one)) == {}
  {
    KernelPlain(name, lfn);
    WroteHere(fs, now, root, path, name, data, KernelName(name, lfn), s);
    var j;
    u, e, j := EntryPut(fs.dirs[c], s.now, name, s.k, |data|, FILE_ATTR, false, KernelName(name, lfn), s.start, s.ents, done);
    NothingElse(s.now, done, one, name, false);
    OneFile(now, s.now, name, lfn, data, j);
  }

  lemma WroteHere(fs: Fs, now: Fs, root: nat, path: seq<Name>, name: Name, data: Bytes, lfn: Option<Long>, s: Step)
    requires lfn.Some? ==> |lfn.value| <= UNITS * MAX_PARTS
    requires Wrote(fs, now, root, path, name, data, lfn, s)
    ensures OnlyHere(fs, now, s.c) && s.c in now.dirs && now.dirs[s.c] == s.now
    ensures s.k in now.files && now.files[s.k] == data
  {
  }

  lemma OneFile(fs: Fs, slots: seq<Slot>, name: Name, lfn: Option<Long>, data: Bytes, j: nat)
    requires Search(slots, 0, name, false) == Some(j) && j < |slots| && FileSize(slots[j], 0) == |data|
    requires ClusterOf(slots[j]) in fs.files && fs.files[ClusterOf(slots[j])] == data
    ensures Listing(Mapped(File(name, lfn, data, Nil))) == [DirEnt(name, false, KernelName(name, lfn))]
    ensures Under(fs, slots, Mapped(File(name, lfn, data, Nil))) && FootUnder(fs, slots, Mapped(File(name, lfn, data, Nil))) == {}
  {
  }

  lemma KernelText(long: Long)
    requires long == KERNEL_LONG
    ensures |long| <= UNITS * MAX_PARTS && Plain(long) && Paired(long)
  {
    assert |long| == 13 && forall i :: 0 <= i < |long| ==> 0 < long[i] < 0xd800;
    PlainText(long);
  }

  lemma KernelPlain(name: Name, lfn: Option<Long>)
    requires GoodName(name, lfn)
    ensures KernelName(name, lfn).Some? ==>
              var long := KernelName(name, lfn).value; |long| <= UNITS * MAX_PARTS && Plain(long) && Paired(long)
  {
    if lfn.None? && name == KERNEL_SHORT {
      KernelText(KernelName(name, lfn).value);
    }
  }

  /** What holds of two parts of a listing holds of both together. */
  lemma Joined(fs: Fs, slots: seq<Slot>, done: Tree, one: Tree)
    ensures Listing(Mapped(Append(done, one))) == Listing(Mapped(done)) + Listing(Mapped(one))
    ensures Under(fs, slots, Mapped(Append(done, one))) <==> Under(fs, slots, Mapped(done)) && Under(fs, slots, Mapped(one))
    ensures FootUnder(fs, slots, Mapped(Append(done, one)))
         == FootUnder(fs, slots, Mapped(done)) + FootUnder(fs, slots, Mapped(one))
  {
    Appended(done, one, DOT, true);
    Appended(Mapped(done), Mapped(one), DOT, true);
    UnderAppend(fs, slots, Mapped(done), Mapped(one));
    FootAppend(fs, slots, Mapped(done), Mapped(one));
  }

  /** A new folder is empty but for the dot entries. */
  lemma FolderFresh(slots: seq<Slot>, k: nat, parent: nat)
    requires NewFolder(slots, k, parent)
    ensures Packed(slots, 2) && List(slots, 0, []) == [] && NothingBut(slots, Nil)
  {
    var n: nat, one: seq<Slot>, a: nat, b: nat :|
      n > 0 && LongNameDir.Installed(Blank(n), one, DOT, k, 0, DIR_ATTR, None, a, [])
      && LongNameDir.Installed(one, slots, DOTDOT, parent, 0, DIR_ATTR, None, b, []);
    var e, f := EntrySlot(DOT, DIR_ATTR, k, 0), EntrySlot(DOTDOT, DIR_ATTR, parent, 0);
    DotNames();
    assert Packed(Blank(n), 0);
    InstalledPut(Blank(n), one, DOT, k, 0, DIR_ATTR, None, a, [], 0);
    PutPacked(Blank(n), one, 0, [], e);
    InstalledPut(one, slots, DOTDOT, parent, 0, DIR_ATTR, None, b, [], 1);
    PutPacked(one, slots, 1, [], f);
    PutListed(Blank(n), one, 0, [], e, DirEnt(e[..11], IsDir(e[11]), Take(Parts([]), e[..11])));
    PutListed(one, slots, 1, [], f, DirEnt(f[..11], IsDir(f[11]), Take(Parts([]), f[..11])));
    forall m: Name, w: bool | m != DOT && m != DOTDOT
      ensures Search(slots, 0, m, w).None?
    {
      PutFinds(Blank(n), one, 0, [], e, m, w);
      PutFinds(one, slots, 1, [], f, m, w);
    }
  }

  lemma DotNames()
    ensures IsDot(DOT) && IsDot(DOTDOT)
  {
  }

  /** A folder just made: its own directory is empty, and the path with its name leads to it. */
  lemma FolderMade(fs: Fs, now: Fs, root: nat, path: seq<Name>, c: nat, done: Tree, name: Name, s: Step, folder: seq<Slot>)
    returns (u: nat, e: Slot, j: nat)
    requires Resolve(fs, root, path) == Some(c) && IsPacked(fs.dirs[c]) && NothingBut(fs.dirs[c], done)
    requires c !in Visited(fs, root, path) && GoodName(name, None) && Made(fs, now, root, path, name, s, folder)
    ensures OnlyHere(fs, now, c) && c in now.dirs && Put(fs.dirs[c], now.dirs[c], u, [], e) && IsPacked(now.dirs[c])
    ensures List(now.dirs[c], 0, []) == List(fs.dirs[c], 0, []) + [DirEnt(name, true, None)]
    ensures j < |now.dirs[c]| && Search(now.dirs[c], 0, name, true) == Some(j) && ClusterOf(now.dirs[c][j]) == s.k
    ensures NothingElseIn(now.dirs[c], done, name, true)
    ensures s.k >= 2 && s.k != c && s.k !in fs.dirs && s.k in now.dirs && now.dirs[s.k] == folder
  {
    u, e, j := EntryPut(fs.dirs[c], s.now, name, s.k, 0, DIR_ATTR, true, None, s.start, s.ents, done);
  }

  /** The path with the new name leads to the new folder, which is ready to be filled. */
  lemma FolderReady(fs: Fs, now: Fs, root: nat, path: seq<Name>, c: nat, name: Name, k: nat, j: nat, folder: seq<Slot>)
    requires Resolve(fs, root, path) == Some(c) && c !in Visited(fs, root, path) && OnlyHere(fs, now, c) && c in now.dirs
    requires j < |now.dirs[c]| && Search(now.dirs[c], 0, name, true) == Some(j) && ClusterOf(now.dirs[c][j]) == k
    requires k >= 2 && k !in fs.dirs && k in now.dirs && now.dirs[k] == folder && NewFolder(folder, k, c)
    ensures ProgressNow(now, now, root, path + [name], k, Nil)
  {
    PathStays(fs, now, root, path, c);
    ResolveOn(now, root, path, c, name, j);
    FolderFresh(folder, k, c);
    assert Visited(now, root, path + [name]) == Visited(fs, root, path) + {c};
  }

  /** A folder more, once its own contents have been copied. */
  lemma FolderAdded(was: Fs, fs: Fs, made: Fs, now: Fs, root: nat, path: seq<Name>, c: nat, done: Tree, name: Name,
                    lfn: Option<Long>, sub: Tree, k: nat, u: nat, e: Slot, j: nat)
    requires ProgressNow(was, fs, root, path, c, done) && k >= 2 && k !in fs.dirs
    requires OnlyHere(fs, made, c) && c in made.dirs && Put(fs.dirs[c], made.dirs[c], u, [], e) && IsPacked(made.dirs[c])
    requires List(made.dirs[c], 0, []) == List(fs.dirs[c], 0, []) + [DirEnt(name, true, None)]
    requires j < |made.dirs[c]| && Search(made.dirs[c], 0, name, true) == Some(j) && ClusterOf(made.dirs[c][j]) == k
    requires NothingElseIn(made.dirs[c], done, name, true)
    requires Progress(made, now, root, path + [name], k, sub)
    ensures ProgressNow(was, now, root, path, c, Append(done, Folder(name, lfn, sub, Nil)))
  {
    var one := Folder(name, lfn, sub, Nil);
    Below(made, now, root, path + [name], k, sub, c);
    NothingElse(made.dirs[c], done, one, name, true);
    OneFolder(made, now, made.dirs[c], name, lfn, sub, k, j);
    FootNew(was, fs, made, c, FootUnder(now, now.dirs[k], Mapped(sub)), k);
    StepDone(was, fs, now, root, path, c, done, one, u, [], e);
  }

  /** Filling a folder leaves every other directory there was as it is. */
  lemma Below(made: Fs, now: Fs, root: nat, path: seq<Name>, k: nat, sub: Tree, c: nat)
    requires Progress(made, now, root, path, k, sub) && c in made.dirs && c != k
    ensures OnlyHere(made, now, k) && k in made.dirs && k in now.dirs && c in now.dirs && now.dirs[c] == made.dirs[c]
    ensures List(now.dirs[k], 0, []) == Listing(Mapped(sub)) && Under(now, now.dirs[k], Mapped(sub))
    ensures forall x :: x in FootUnder(now, now.dirs[k], Mapped(sub)) ==> x !in made.dirs
  {
    ProgressIs(made, now, root, path, k, sub);
  }

  /** What is new in the folder, and the folder itself, was not there before. */
  lemma FootNew(was: Fs, fs: Fs, made: Fs, c: nat, foot: set<nat>, k: nat)
    requires c in was.dirs && OnlyHere(was, fs, c) && OnlyHere(fs, made, c) && k !in fs.dirs && forall x :: x in foot ==> x !in made.dirs
    ensures forall x :: x in {k} + foot ==> x !in was.dirs
  {
  }

  lemma OneFolder(made: Fs, now: Fs, slots: seq<Slot>, name: Name, lfn: Option<Long>, sub: Tree, k: nat, j: nat)
    requires j < |slots| && Search(slots, 0, name, true) == Some(j) && ClusterOf(slots[j]) == k >= 2 && k in now.dirs
    requires List(now.dirs[k], 0, []) == Listing(Mapped(sub)) && Under(now, now.dirs[k], Mapped(sub))
    ensures Listing(Mapped(Folder(name, lfn, sub, Nil))) == [DirEnt(name, true, None)]
    ensures Under(now, slots, Mapped(Folder(name, lfn, sub, Nil)))
    ensures FootUnder(now, slots, Mapped(Folder(name, lfn, sub, Nil))) == {k} + FootUnder(now, now.dirs[k], Mapped(sub))
  {
    var m := Folder(name, None, Mapped(sub), Nil);
    assert Mapped(Folder(name, lfn, sub, Nil)) == m;
    assert HoldsTree(now, k, Mapped(sub));
  }

  // ---------------------------------------------------------------- the copy

  /** Copies the directory at `path`, whose tree is `t`, into the one of the same path, at cluster `c`. If the free clusters
      are known, it succeeds exactly when they and the slots suffice and every file can be read. */
  method CopyDirTree(src: Volume, dst: Volume, path: seq<Name>, ghost from: nat, ghost c: nat, ghost t: Tree, ghost g: Mark)
    returns (ok: bool)
    requires Sides(src, dst) && Sound(t)
    requires Resolve(src.fs, src.root, path) == Some(from) && HoldsTree(src.fs, from, t)
    requires Progress(dst.fs, dst.fs, dst.root, path, c, Nil) && SpaceLeft(dst.disk.img, dst.vol, dst.fs, c, g)
    modifies dst, dst.disk
    ensures Sides(src, dst)
    ensures ok ==> Progress(old(dst.fs), dst.fs, dst.root, path, c, t) && NoneEmpty(t)
    ensures ok ==> SpaceLeft(dst.disk.img, dst.vol, dst.fs, c, After(g, t, LimitsOf(dst.vol)))
    ensures g.known ==> (ok <==> Suffices(src.disk.img, src.vol, path, t, LimitsOf(dst.vol), g))
    decreases t, 3
  {
    ResolveReaches(src.fs, src.root, path);
    var ents := src.ListDir(path);
    if ents.None? {
      return false;
    }
    ok := CopyEntries(src, dst, path, ents.value, from, c, t, g);
  }

  method CopyEntries(src: Volume, dst: Volume, path: seq<Name>, ents: seq<DirEnt>, ghost from: nat, ghost c: nat, ghost t: Tree,
                     ghost g: Mark) returns (ok: bool)
    requires Sides(src, dst) && Sound(t) && ents == Listing(t)
    requires Resolve(src.fs, src.root, path) == Some(from) && Under(src.fs, src.fs.dirs[from], t)
    requires Progress(dst.fs, dst.fs, dst.root, path, c, Nil) && SpaceLeft(dst.disk.img, dst.vol, dst.fs, c, g)
    modifies dst, dst.disk
    ensures Sides(src, dst)
    ensures ok ==> Progress(old(dst.fs), dst.fs, dst.root, path, c, t) && NoneEmpty(t)
    ensures ok ==> SpaceLeft(dst.disk.img, dst.vol, dst.fs, c, After(g, t, LimitsOf(dst.vol)))
    ensures g.known ==> (ok <==> Suffices(src.disk.img, src.vol, path, t, LimitsOf(dst.vol), g))
    decreases t, 2
  {
    ghost var was, done, rest := dst.fs, Nil, t;
    SidesHold(src, dst);
    NothingTaken(src.disk.img, src.vol, path, dst.disk.img, dst.vol, dst.fs, c, g);
    AppendNil(t);
    for i := 0 to |ents|
      invariant Sides(src, dst)
      invariant Halfway(src, dst, path, ents[i..], from, c, was, done, rest, t, g) == true
    {
      ok := CopyEntry(src, dst, path, ents, i, from, c, was, done, rest, t, g);
      if !ok {
        return;
      }
      done, rest := Append(done, First(rest)), rest.rest;
    }
    AppendNil(done);
    ok := true;
  }

  /** `done` has been copied, and the entries still to come are those of `rest`. */
  ghost predicate Halfway(src: Volume, dst: Volume, path: seq<Name>, ents: seq<DirEnt>, from: nat, c: nat, was: Fs, done: Tree,
                          rest: Tree, t: Tree, g: Mark)
    requires dst.vol.spc > 0
    reads src, src.disk, dst, dst.disk
  {
    && Left(src.fs, from, ents, done, rest, t)
    && Progress(was, dst.fs, dst.root, path, c, done) && NoneEmpty(done)
    && SpaceLeft(dst.disk.img, dst.vol, dst.fs, c, After(g, done, LimitsOf(dst.vol)))
    && (g.known ==> Suffices(src.disk.img, src.vol, path, done, LimitsOf(dst.vol), g))
  }

  method CopyEntry(src: Volume, dst: Volume, path: seq<Name>, ents: seq<DirEnt>, i: nat, ghost from: nat, ghost c: nat,
                   ghost was: Fs, ghost done: Tree, ghost rest: Tree, ghost t: Tree, ghost g: Mark) returns (ok: bool)
    requires Sides(src, dst) && Sound(t) && i < |ents| && Resolve(src.fs, src.root, path) == Some(from)
    requires Halfway(src, dst, path, ents[i..], from, c, was, done, rest, t, g)
    modifies dst, dst.disk
    ensures Sides(src, dst)
    ensures ok ==> !rest.Nil? && Halfway(src, dst, path, ents[i + 1..], from, c, was, Append(done, First(rest)), rest.rest, t, g)
    ensures !ok && g.known ==> !Suffices(src.disk.img, src.vol, path, t, LimitsOf(dst.vol), g)
    decreases rest, 1
  {
    ghost var lim := LimitsOf(dst.vol);
    LeftStep(src.fs, from, ents, i, done, rest, t);
    NextEntry(src.disk.img, src.vol, path, done, First(rest), rest.rest, t, lim, g);
    Appended(done, First(rest), DOT, true);
    if ents[i].isDir {
      ok := CopyFolder(src, dst, path, ents[i], from, c, was, done, rest, After(g, done, lim));
    } else {
      ok := CopyFile(src, dst, path, ents[i], from, c, was, done, rest, After(g, done, lim));
    }
  }

  lemma SidesHold(src: Volume, dst: Volume)
    requires Sides(src, dst)
    ensures Holds(src.disk.img, src.vol) && Holds(dst.disk.img, dst.vol)
  {
    src.Open();
    dst.Open();
  }

  /** The entries still to be copied are those of `rest`. */
  ghost predicate Left(fs: Fs, from: nat, ents: seq<DirEnt>, done: Tree, rest: Tree, t: Tree) {
    && Append(done, rest) == t && ents == Listing(rest) && (rest == t || rest < t)
    && from in fs.dirs && Under(fs, fs.dirs[from], rest) && (ents == [] <==> rest.Nil?)
  }

  lemma LeftStep(fs: Fs, from: nat, ents: seq<DirEnt>, i: nat, done: Tree, rest: Tree, t: Tree)
    requires i < |ents| && Left(fs, from, ents[i..], done, rest, t) && Sound(t)
    ensures !rest.Nil? && ents[i] == DirEnt(rest.name, rest.Folder?, rest.lfn) && Sound(rest)
    ensures !Has(done, rest.name, rest.Folder?)
    ensures Left(fs, from, ents[i + 1..], Append(done, First(rest)), rest.rest, t)
    ensures t == Append(Append(done, First(rest)), rest.rest)
    ensures NoneEmpty(Append(done, First(rest))) <==> NoneEmpty(done) && NoneEmpty(First(rest))
  {
    SoundAppend(done, rest);
    ListingHead(ents, i, rest);
    AppendAssoc(done, First(rest), rest.rest);
    Appended(done, First(rest), DOT, true);
  }

  method CopyFolder(src: Volume, dst: Volume, path: seq<Name>, ent: DirEnt, ghost from: nat, ghost c: nat, ghost was: Fs,
                    ghost done: Tree, ghost rest: Tree, ghost g: Mark) returns (ok: bool)
    requires Sides(src, dst) && SpaceLeft(dst.disk.img, dst.vol, dst.fs, c, g) && rest.Folder? && Sound(rest) && ent == DirEnt(rest.name, true, rest.lfn)
    requires Resolve(src.fs, src.root, path) == Some(from) && Under(src.fs, src.fs.dirs[from], rest)
    requires Progress(was, dst.fs, dst.root, path, c, done) && !Has(done, rest.name, true)
    modifies dst, dst.disk
    ensures Sides(src, dst)
    ensures ok ==> Progress(was, dst.fs, dst.root, path, c, Append(done, First(rest))) && NoneEmpty(First(rest))
    ensures ok ==> SpaceLeft(dst.disk.img, dst.vol, dst.fs, c, After(g, First(rest), LimitsOf(dst.vol)))
    ensures g.known ==> (ok <==> Suffices(src.disk.img, src.vol, path, First(rest), LimitsOf(dst.vol), g))
    decreases rest, 0
  {
    ghost var fs, img, lim := dst.fs, dst.disk.img, LimitsOf(dst.vol);
    FolderAsked(dst, path, ent.name, c, was, done, g);
    FolderSuffices(src.disk.img, src.vol, path, rest, lim, g);
    var made;
    ghost var s, folder;
    made, s, folder := dst.MkdirIn(path, ent.name);
    if !made {
      return false;
    }
    ghost var at, mid := dst.fs, dst.disk.img;
    FolderOpened(img, mid, dst.vol, was, fs, at, dst.root, path, c, done, g, ent.name, s, folder);
    ghost var below := SourceFolder(src.fs, src.root, path, from, rest);
    ok := CopyDirTree(src, dst, path + [ent.name], below, s.k, rest.sub, Inner(g, lim));
    if ok {
      FolderCopied(img, mid, dst.disk.img, dst.vol, was, fs, at, dst.fs, dst.root, path, c, done, g, rest, s, folder);
    }
  }

  /** Whether the next folder can be made. */
  lemma FolderAsked(dst: Volume, path: seq<Name>, name: Name, c: nat, was: Fs, done: Tree, g: Mark)
    requires dst.Valid() && GoodName(name, None) && dst.vol.spc > 0
    requires Progress(was, dst.fs, dst.root, path, c, done) && !Has(done, name, true)
    requires SpaceLeft(dst.disk.img, dst.vol, dst.fs, c, g)
    ensures Reaches(dst.fs, dst.root, path) && Resolve(dst.fs, dst.root, path) == Some(c)
    ensures Search(dst.fs.dirs[c], 0, name, true).None?
    ensures g.known ==>
              (CanMake(dst.disk.img, dst.vol, dst.fs, dst.root, path, name) <==> g.p + 1 <= Entries(dst.vol) && g.u + 1 <= g.m)
  {
    ProgressIs(was, dst.fs, dst.root, path, c, done);
    ResolveReaches(dst.fs, dst.root, path);
    NotThere(dst.fs.dirs[c], done, name, true);
    dst.Open();
    FolderRoom(dst.disk.img, dst.vol, dst.fs, c, g);
  }

  /** A folder made by `MkdirIn` is ready to be filled. */
  lemma FolderOpened(img: Bytes, mid: Bytes, vol: Vol, was: Fs, fs: Fs, at: Fs, root: nat, path: seq<Name>, c: nat, done: Tree,
                     g: Mark, name: Name, s: Step, folder: seq<Slot>)
    requires Progress(was, fs, root, path, c, done) && SpaceLeft(img, vol, fs, c, g) && vol.spc > 0 && GoodName(name, None)
    requires Made(fs, at, root, path, name, s, folder) && Marks(img, mid, vol, s.k, 1) && |folder| == SLOTS * vol.spc
    ensures Progress(at, at, root, path + [name], s.k, Nil) && SpaceLeft(mid, vol, at, s.k, Inner(g, LimitsOf(vol)))
  {
    ProgressIs(was, fs, root, path, c, done);
    var u, e, j := FolderMade(fs, at, root, path, c, done, name, s, folder);
    FolderSpace(img, mid, vol, fs, at, c, g, s.k, u, e, folder);
    FolderReady(fs, at, root, path, c, name, s.k, j, folder);
    ProgressIs(at, at, root, path + [name], s.k, Nil);
  }

  /** And once it is filled, it is one more of what has been copied. */
  lemma FolderCopied(img: Bytes, mid: Bytes, end: Bytes, vol: Vol, was: Fs, fs: Fs, at: Fs, now: Fs, root: nat, path: seq<Name>,
                     c: nat, done: Tree, g: Mark, rest: Tree, s: Step, folder: seq<Slot>)
    requires rest.Folder? && GoodName(rest.name, None) && vol.spc > 0
    requires Progress(was, fs, root, path, c, done) && SpaceLeft(img, vol, fs, c, g)
    requires Made(fs, at, root, path, rest.name, s, folder) && Marks(img, mid, vol, s.k, 1) && |folder| == SLOTS * vol.spc
    requires Progress(at, now, root, path + [rest.name], s.k, rest.sub)
    requires SpaceLeft(end, vol, now, s.k, After(Inner(g, LimitsOf(vol)), rest.sub, LimitsOf(vol)))
    ensures Progress(was, now, root, path, c, Append(done, First(rest)))
    ensures SpaceLeft(end, vol, now, c, After(g, First(rest), LimitsOf(vol)))
  {
    ProgressIs(was, fs, root, path, c, done);
    var u, e, j := FolderMade(fs, at, root, path, c, done, rest.name, s, folder);
    FolderSpace(img, mid, vol, fs, at, c, g, s.k, u, e, folder);
    Below(at, now, root, path + [rest.name], s.k, rest.sub, c);
    ProgressIs(was, now, root, path, c, Append(done, First(rest)));
    FolderAdded(was, fs, at, now, root, path, c, done, rest.name, rest.lfn, rest.sub, s.k, u, e, j);
    FolderTakes(rest, LimitsOf(vol), g);
  }

  lemma FolderTakes(rest: Tree, lim: Limits, g: Mark)
    requires lim.bytes > 0 && rest.Folder?
    ensures After(g, First(rest), lim) == g.(p := After(Inner(g, lim), rest.sub, lim).p, u := g.u + 1)
  {
    assert Cost(Nil, lim.bytes) == 0 && SlotsOf(Nil) == 0;
    assert First(rest) == Folder(rest.name, rest.lfn, rest.sub, Nil);
  }

  method CopyFile(src: Volume, dst: Volume, path: seq<Name>, ent: DirEnt, ghost from: nat, ghost c: nat, ghost was: Fs,
                  ghost done: Tree, ghost rest: Tree, ghost g: Mark) returns (ok: bool)
    requires Sides(src, dst) && SpaceLeft(dst.disk.img, dst.vol, dst.fs, c, g) && rest.File? && Sound(rest) && ent == DirEnt(rest.name, false, rest.lfn)
    requires Resolve(src.fs, src.root, path) == Some(from) && Under(src.fs, src.fs.dirs[from], rest)
    requires Progress(was, dst.fs, dst.root, path, c, done) && !Has(done, rest.name, false)
    modifies dst, dst.disk
    ensures Sides(src, dst)
    ensures ok ==> Progress(was, dst.fs, dst.root, path, c, Append(done, First(rest))) && NoneEmpty(First(rest))
    ensures ok ==> SpaceLeft(dst.disk.img, dst.vol, dst.fs, c, After(g, First(rest), LimitsOf(dst.vol)))
    ensures g.known ==> (ok <==> Suffices(src.disk.img, src.vol, path, First(rest), LimitsOf(dst.vol), g))
  {
    SidesHold(src, dst);
    FileSuffices(src.disk.img, src.vol, path, rest, LimitsOf(dst.vol), g);
    ResolveReaches(src.fs, src.root, path);
    var data := src.ReadIn(path, ent.name, rest.data);
    if data.None? {
      return false;
    }
    ok := PutFile(dst, path, ent.name, ent.lfn, data.value, c, was, done, g);
  }

  method PutFile(dst: Volume, path: seq<Name>, name: Name, lfn: Option<Long>, data: Bytes, ghost c: nat, ghost was: Fs,
                 ghost done: Tree, ghost g: Mark) returns (ok: bool)
    requires dst.Valid() && GoodName(name, lfn) && |data| < 0x1_0000_0000 && dst.vol.spc > 0
    requires Progress(was, dst.fs, dst.root, path, c, done) && !Has(done, name, false)
    requires SpaceLeft(dst.disk.img, dst.vol, dst.fs, c, g)
    modifies dst, dst.disk
    ensures dst.Valid()
    ensures ok ==> Progress(was, dst.fs, dst.root, path, c, Append(done, File(name, lfn, data, Nil))) && data != []
    ensures ok ==> SpaceLeft(dst.disk.img, dst.vol, dst.fs, c, After(g, File(name, lfn, data, Nil), LimitsOf(dst.vol)))
    ensures g.known ==> (ok <==> FileFits(name, lfn, data, LimitsOf(dst.vol), g))
  {
    ghost var fs, img := dst.fs, dst.disk.img;
    FileAsked(dst, path, name, lfn, data, c, was, done, g);
    ghost var s;
    ok, s := dst.WriteIn(path, name, data, KernelName(name, lfn));
    if ok {
      FileCopied((img, dst.disk.img), dst.vol, was, fs, dst.fs, dst.root, path, c, done, g, name, lfn, data, s);
    }
  }

  /** Whether the next file can be written. */
  lemma FileAsked(dst: Volume, path: seq<Name>, name: Name, lfn: Option<Long>, data: Bytes, c: nat, was: Fs, done: Tree, g: Mark)
    requires dst.Valid() && GoodName(name, lfn) && dst.vol.spc > 0
    requires Progress(was, dst.fs, dst.root, path, c, done) && !Has(done, name, false)
    requires SpaceLeft(dst.disk.img, dst.vol, dst.fs, c, g)
    ensures Reaches(dst.fs, dst.root, path)
    ensures KernelName(name, lfn).Some? ==> |KernelName(name, lfn).value| <= UNITS * MAX_PARTS
    ensures g.known ==>
              (CanWrite(dst.disk.img, dst.vol, dst.fs, dst.root, path, name, data, KernelName(name, lfn)) <==>
               FileFits(name, lfn, data, LimitsOf(dst.vol), g))
  {
    ProgressIs(was, dst.fs, dst.root, path, c, done);
    ResolveReaches(dst.fs, dst.root, path);
    KernelPlain(name, lfn);
    NotThere(dst.fs.dirs[c], done, name, false);
    dst.Open();
    FileRoom(dst.disk.img, dst.vol, dst.fs, c, g, name, lfn, data);
  }

  /** There is enough for one file. */
  predicate FileFits(name: Name, lfn: Option<Long>, data: Bytes, lim: Limits, g: Mark)
    requires lim.bytes > 0
  {
    data != [] && g.p + ClustersNeeded(|data|, lim.bytes) <= lim.clusters && g.u + Places(KernelName(name, lfn)) <= g.m
  }

  /** The clusters and slots known to be free decide whether a file can be written. */
  lemma FileRoom(img: Bytes, vol: Vol, fs: Fs, c: nat, g: Mark, name: Name, lfn: Option<Long>, data: Bytes)
    requires Holds(img, vol) && SpaceLeft(img, vol, fs, c, g) && c in fs.dirs
    ensures g.known && data != [] ==>
              (NoRun(Fat(img, vol), ClustersNeeded(|data|, ClusterBytes(vol))) <==>
               g.p + ClustersNeeded(|data|, ClusterBytes(vol)) > Entries(vol))
    ensures g.known ==> (LongNameDir.NoRoom(fs.dirs[c], Places(KernelName(name, lfn))) <==>
                         g.u + Places(KernelName(name, lfn)) > g.m)
  {
    if g.known {
      if data != [] {
        FreeRuns(Fat(img, vol), g.p, ClustersNeeded(|data|, ClusterBytes(vol)), 0);
      }
      PackedRoom(fs.dirs[c], g.u, Places(KernelName(name, lfn)));
    }
  }

  lemma FileSpace(was: Bytes, now: Bytes, vol: Vol, fs: Fs, after: Fs, c: nat, g: Mark, name: Name, lfn: Option<Long>, data: Bytes,
                  s: Step)
    requires SpaceLeft(was, vol, fs, c, g) && vol.spc > 0 && c in fs.dirs && c in after.dirs && after.dirs[c] == s.now
    requires GoodName(name, lfn) && IsPacked(fs.dirs[c]) && data != []
    requires KernelName(name, lfn).Some? ==> |KernelName(name, lfn).value| <= UNITS * MAX_PARTS
    requires LongNameDir.Installed(fs.dirs[c], s.now, name, s.k, |data|, FILE_ATTR, KernelName(name, lfn), s.start, s.ents)
    requires Marks(was, now, vol, s.k, ClustersNeeded(|data|, ClusterBytes(vol)))
    ensures SpaceLeft(now, vol, after, c, After(g, File(name, lfn, data, Nil), LimitsOf(vol)))
  {
    KernelPlain(name, lfn);
    var u: nat, e := FilePlaced(fs.dirs[c], s.now, name, s.k, data, KernelName(name, lfn), s);
    FileTakes(name, lfn, data, LimitsOf(vol), g);
    SpaceTaken(was, now, vol, fs, after, c, g, s.k, ClustersNeeded(|data|, ClusterBytes(vol)), u, s.ents, e,
               After(g, File(name, lfn, data, Nil), LimitsOf(vol)));
  }

  /** A file written by `WriteIn` is one more of what has been copied. */
  lemma FileCopied(imgs: (Bytes, Bytes), vol: Vol, was: Fs, fs: Fs, now: Fs, root: nat, path: seq<Name>, c: nat, done: Tree, g: Mark,
                   name: Name, lfn: Option<Long>, data: Bytes, s: Step)
    requires Progress(was, fs, root, path, c, done) && SpaceLeft(imgs.0, vol, fs, c, g) && vol.spc > 0
    requires GoodName(name, lfn) && |data| < 0x1_0000_0000
    requires KernelName(name, lfn).Some? ==> |KernelName(name, lfn).value| <= UNITS * MAX_PARTS
    requires Wrote(fs, now, root, path, name, data, KernelName(name, lfn), s)
    requires Marks(imgs.0, imgs.1, vol, s.k, ClustersNeeded(|data|, ClusterBytes(vol)))
    ensures Progress(was, now, root, path, c, Append(done, File(name, lfn, data, Nil)))
    ensures SpaceLeft(imgs.1, vol, now, c, After(g, File(name, lfn, data, Nil), LimitsOf(vol)))
  {
    ProgressIs(was, fs, root, path, c, done);
    ProgressIs(was, now, root, path, c, Append(done, File(name, lfn, data, Nil)));
    FileAdded(was, fs, now, root, path, c, done, name, lfn, data, s);
    FileSpace(imgs.0, imgs.1, vol, fs, now, c, g, name, lfn, data, s);
  }

  lemma FilePlaced(slots: seq<Slot>, now: seq<Slot>, name: Name, k: nat, data: Bytes, lfn: Option<Long>, s: Step)
    returns (u: nat, e: Slot)
    requires lfn.Some? ==> |lfn.value| <= UNITS * MAX_PARTS && Plain(lfn.value) && Paired(lfn.value)
    requires IsPacked(slots) && Shown(name, FILE_ATTR)
    requires LongNameDir.Installed(slots, now, name, k, |data|, FILE_ATTR, lfn, s.start, s.ents)
    ensures Put(slots, now, u, s.ents, e) && |s.ents| + 1 == Places(lfn)
  {
    u :| Packed(slots, u);
    e := EntrySlot(name, FILE_ATTR, k, |data|);
    InstalledPut(slots, now, name, k, |data|, FILE_ATTR, lfn, s.start, s.ents, u);
  }

  lemma FileTakes(name: Name, lfn: Option<Long>, data: Bytes, lim: Limits, g: Mark)
    requires lim.bytes > 0
    ensures After(g, File(name, lfn, data, Nil), lim)
         == g.(p := g.p + ClustersNeeded(|data|, lim.bytes), u := g.u + Places(KernelName(name, lfn)))
  {
    assert Cost(Nil, lim.bytes) == 0 && SlotsOf(Nil) == 0;
  }

  lemma NilSuffices(img: Bytes, vol: Vol, path: seq<Name>, lim: Limits)
    requires lim.bytes > 0
    ensures Readable(img, vol, path, Nil) && NoneEmpty(Nil) && RoomsFit(Nil, lim.slots)
    ensures Cost(Nil, lim.bytes) == 0 && SlotsOf(Nil) == 0
  {
  }

  lemma FileSuffices(img: Bytes, vol: Vol, path: seq<Name>, rest: Tree, lim: Limits, g: Mark)
    requires lim.bytes > 0 && rest.File?
    ensures Suffices(img, vol, path, First(rest), lim, g) <==>
            FatFiles.PathToFile(img, vol, path, rest.name) && FatFiles.Locate(img, vol, path, rest.name).Ok?
            && FileFits(rest.name, rest.lfn, rest.data, lim, g)
  {
    NilSuffices(img, vol, path, lim);
    FileTakes(rest.name, rest.lfn, rest.data, lim, g);
  }

  /** The same for a folder. */
  lemma FolderRoom(img: Bytes, vol: Vol, fs: Fs, c: nat, g: Mark)
    requires Holds(img, vol) && SpaceLeft(img, vol, fs, c, g) && c in fs.dirs
    ensures g.known ==> (NoRun(Fat(img, vol), 1) <==> g.p + 1 > Entries(vol))
    ensures g.known ==> (LongNameDir.NoRoom(fs.dirs[c], 1) <==> g.u + 1 > g.m)
  {
    if g.known {
      FreeRuns(Fat(img, vol), g.p, 1, 0);
      PackedRoom(fs.dirs[c], g.u, 1);
    }
  }

  /** Inside a folder made at `g`. */
  function Inner(g: Mark, lim: Limits): Mark {
    Mark(g.known, g.p + 1, 2, lim.slots)
  }

  lemma FolderSuffices(img: Bytes, vol: Vol, path: seq<Name>, rest: Tree, lim: Limits, g: Mark)
    requires lim.bytes > 0 && rest.Folder?
    ensures Suffices(img, vol, path, First(rest), lim, g) <==>
            g.u + 1 <= g.m && Suffices(img, vol, path + [rest.name], rest.sub, lim, Inner(g, lim))
    ensures Suffices(img, vol, path, First(rest), lim, g) ==> g.p + 1 <= lim.clusters
  {
    var one := First(rest);
    assert one == Folder(rest.name, rest.lfn, rest.sub, Nil);
    NilSuffices(img, vol, path, lim);
  }

  lemma FolderSpace(was: Bytes, now: Bytes, vol: Vol, fs: Fs, at: Fs, c: nat, g: Mark, k: nat, u: nat, e: Slot, folder: seq<Slot>)
    requires SpaceLeft(was, vol, fs, c, g) && Marks(was, now, vol, k, 1) && c in fs.dirs && c in at.dirs && k in at.dirs
    requires Put(fs.dirs[c], at.dirs[c], u, [], e) && at.dirs[k] == folder && NewFolder(folder, k, c) && |folder| == SLOTS * vol.spc
    ensures SpaceLeft(now, vol, at, c, g.(p := g.p + 1, u := g.u + 1))
    ensures vol.spc > 0 ==> SpaceLeft(now, vol, at, k, Inner(g, LimitsOf(vol)))
  {
    SpaceTaken(was, now, vol, fs, at, c, g, k, 1, u, [], e, g.(p := g.p + 1, u := g.u + 1));
    FolderFresh(folder, k, c);
  }

  /** A name still to come is not in the directory yet. */
  lemma NotThere(slots: seq<Slot>, done: Tree, name: Name, isDir: bool)
    requires NothingBut(slots, done) && !Has(done, name, isDir) && GoodName(name, None)
    ensures Search(slots, 0, name, isDir).None?
  {
    DotNames();
  }

  /** The first entry alone. */
  function First(t: Tree): Tree
    requires !t.Nil?
  {
    match t
    case File(n, l, data, _) => File(n, l, data, Nil)
    case Folder(n, l, sub, _) => Folder(n, l, sub, Nil)
  }

  lemma ListingHead(ents: seq<DirEnt>, i: nat, rest: Tree)
    requires i < |ents| && ents[i..] == Listing(rest) && Sound(rest)
    ensures !rest.Nil? && ents[i] == DirEnt(rest.name, rest.Folder?, rest.lfn) && ents[i + 1..] == Listing(rest.rest)
    ensures Append(First(rest), rest.rest) == rest && GoodName(rest.name, rest.lfn)
    ensures Has(rest, rest.name, rest.Folder?)
  {
    assert ents[i..][0] == ents[i] && ents[i..][1..] == ents[i + 1..];
  }

  /** The folder is found at the source by the longer path. */
  lemma SourceFolder(fs: Fs, root: nat, path: seq<Name>, from: nat, rest: Tree) returns (k: nat)
    requires Resolve(fs, root, path) == Some(from) && Under(fs, fs.dirs[from], rest) && rest.Folder?
    ensures Resolve(fs, root, path + [rest.name]) == Some(k) && HoldsTree(fs, k, rest.sub)
  {
    var j := Search(fs.dirs[from], 0, rest.name, true).value;
    k := ClusterOf(fs.dirs[from][j]);
    ResolveOn(fs, root, path, from, rest.name, j);
  }

  /** Copies everything to a FAT32 volume whose root directory shows nothing (a volume label may be there). If the
      call succeeds, the destination holds the source's tree: the same folders and files in the same order with the
      same bytes, files with their long names (the kernel's supplied), folders without. A source with an empty file
      is never copied to the end. */
  method CopyFatPartition(src: Volume, dst: Volume, ghost t: Tree) returns (ok: bool)
    requires src != dst && src.disk != dst.disk && src.Valid() && dst.Valid() && LinksKnown(src.disk.img, src.vol)
    requires Copyable(t) && HoldsTree(src.fs, src.root, t) && dst.root in dst.fs.dirs
    requires IsPacked(dst.fs.dirs[dst.root]) && NothingBut(dst.fs.dirs[dst.root], Nil)
    requires List(dst.fs.dirs[dst.root], 0, []) == []
    modifies dst, dst.disk
    ensures dst.Valid()
    ensures ok ==> HoldsTree(dst.fs, dst.root, Mapped(t)) && NoneEmpty(t)
    ensures dst.vol.kind.Fat16? ==> !ok && dst.disk.img == old(dst.disk.img)
    ensures dst.vol.spc > 0
    ensures dst.vol.kind.Fat32? ==>
              forall p: nat, u: nat :: KnownSpace(old(dst.disk.img), dst.vol, old(dst.fs), dst.root, p, u) ==>
                (ok <==> Enough(src.disk.img, src.vol, [], t, LimitsOf(dst.vol), p, u, |old(dst.fs).dirs[dst.root]|))
  {
    dst.Open();
    if dst.vol.kind.Fat16? {
      return false;
    }
    src.Open();
    CopyStarts(dst.fs, dst.root);
    ListedSound(src.fs, src.fs.dirs[src.root], t, 0);
    ghost var was := dst.fs;
    ghost var g := TheMark(dst.disk.img, dst.vol, dst.fs, dst.root);
    ok := CopyDirTree(src, dst, [], src.root, dst.root, t, g);
    if ok {
      CopyEnds(was, dst.fs, dst.root, t);
    }
  }

  /** The clusters from `p` on are the free ones, and `u` slots of the directory are in use. */
  ghost predicate KnownSpace(img: Bytes, vol: Vol, fs: Fs, c: nat, p: nat, u: nat) {
    Holds(img, vol) && FreeFrom(Fat(img, vol), p) && c in fs.dirs && Packed(fs.dirs[c], u)
  }

  /** There is at most one way to know it. */
  lemma TheMark(img: Bytes, vol: Vol, fs: Fs, c: nat) returns (g: Mark)
    requires c in fs.dirs
    ensures SpaceLeft(img, vol, fs, c, g) && g.m == |fs.dirs[c]|
    ensures forall p: nat, u: nat :: KnownSpace(img, vol, fs, c, p, u) ==> g.known && p == g.p && u == g.u
  {
    g := Mark(false, 0, 0, |fs.dirs[c]|);
    if p: nat, u: nat :| KnownSpace(img, vol, fs, c, p, u) {
      g := Mark(true, p, u, |fs.dirs[c]|);
      forall q: nat, v: nat | KnownSpace(img, vol, fs, c, q, v)
        ensures q == p && v == u
      {
        FreeFromOnce(Fat(img, vol), p, q);
        PackedOnce(fs.dirs[c], u, v);
      }
    }
  }

  lemma CopyStarts(fs: Fs, root: nat)
    requires root in fs.dirs && IsPacked(fs.dirs[root]) && NothingBut(fs.dirs[root], Nil) && List(fs.dirs[root], 0, []) == []
    ensures Progress(fs, fs, root, [], root, Nil)
  {
    ProgressIs(fs, fs, root, [], root, Nil);
  }

  lemma CopyEnds(was: Fs, fs: Fs, root: nat, t: Tree)
    requires Progress(was, fs, root, [], root, t)
    ensures HoldsTree(fs, root, Mapped(t))
  {
    ProgressIs(was, fs, root, [], root, t);
  }

  /** Two volumes on different images; the one copied to is FAT32. */
  ghost predicate Sides(src: Volume, dst: Volume)
    reads src, src.disk, dst, dst.disk
  {
    && src != dst && src.disk != dst.disk && src.Valid() && dst.Valid() && dst.vol.kind.Fat32? && dst.vol.spc > 0
    && LinksKnown(src.disk.img, src.vol)
  }

  // ---------------------------------------------------------------- by path

  /** The contents of the folder a path leads to. */
  function TreeAt(t: Tree, path: seq<Name>): Option<Tree>
    decreases t, |path|
  {
    if path == [] then Some(t)
    else
      match t
      case Nil => None
      case File(_, _, _, rest) => TreeAt(rest, path)
      case Folder(n, _, sub, rest) => if n == path[0] then TreeAt(sub, path[1..]) else TreeAt(rest, path)
  }

  lemma {:induction false} MappedAt(t: Tree, path: seq<Name>)
    ensures TreeAt(Mapped(t), path) == match TreeAt(t, path) case None => None case Some(s) => Some(Mapped(s))
    decreases t, |path|
  {
    if path != [] {
      match t
      case Nil =>
      case File(_, _, _, rest) => MappedAt(rest, path);
      case Folder(n, _, sub, rest) =>
        if n == path[0] {
          MappedAt(sub, path[1..]);
        } else {
          MappedAt(rest, path);
        }
    }
  }

  /** A folder of the tree is where its path leads. */
  lemma {:induction false} PathHolds(fs: Fs, c: nat, slots: seq<Slot>, t: Tree, path: seq<Name>) returns (k: nat)
    requires c in fs.dirs && slots == fs.dirs[c] && Under(fs, slots, t) && TreeAt(t, path).Some? && path != []
    ensures Resolve(fs, c, path) == Some(k) && HoldsTree(fs, k, TreeAt(t, path).value)
    decreases t, |path|
  {
    k := c;
    match t
    case Nil =>
    case File(_, _, _, rest) => k := PathHolds(fs, c, slots, rest, path);
    case Folder(n, _, sub, rest) =>
      if n == path[0] {
        k := ClusterOf(slots[Search(slots, 0, n, true).value]);
        if path[1..] != [] {
          k := PathHolds(fs, k, fs.dirs[k], sub, path[1..]);
        }
      } else {
        k := PathHolds(fs, c, slots, rest, path);
      }
  }

  lemma {:induction false} FileFound(fs: Fs, slots: seq<Slot>, t: Tree, name: Name, lfn: Option<Long>, data: Bytes)
    requires Under(fs, slots, t) && HasFile(t, name, lfn, data)
    ensures FileIn(fs, slots, name, data) && DirEnt(name, false, lfn) in Listing(t)
  {
    if !(t.File? && t.name == name && t.lfn == lfn && t.data == data) {
      FileFound(fs, slots, t.rest, name, lfn, data);
    }
  }

  predicate HasFile(t: Tree, name: Name, lfn: Option<Long>, data: Bytes) {
    match t
    case Nil => false
    case File(n, l, d, rest) => (n == name && l == lfn && d == data) || HasFile(rest, name, lfn, data)
    case Folder(_, _, _, rest) => HasFile(rest, name, lfn, data)
  }

  lemma {:induction false} MappedFile(t: Tree, name: Name, lfn: Option<Long>, data: Bytes)
    requires HasFile(t, name, lfn, data)
    ensures HasFile(Mapped(t), name, KernelName(name, lfn), data)
  {
    if !(t.File? && t.name == name && t.lfn == lfn && t.data == data) {
      MappedFile(t.rest, name, lfn, data);
    }
  }

  /** Every file of the source, under its path, is in the copy with the same bytes and listed with its long name. */
  lemma CopiedByPath(fs: Fs, root: nat, t: Tree, path: seq<Name>, name: Name, lfn: Option<Long>, data: Bytes) returns (k: nat)
    requires HoldsTree(fs, root, Mapped(t)) && TreeAt(t, path).Some? && HasFile(TreeAt(t, path).value, name, lfn, data)
    ensures Resolve(fs, root, path) == Some(k) && FileIn(fs, fs.dirs[k], name, data)
    ensures DirEnt(name, false, KernelName(name, lfn)) in List(fs.dirs[k], 0, [])
  {
    MappedAt(t, path);
    k := root;
    if path != [] {
      k := PathHolds(fs, root, fs.dirs[root], Mapped(t), path);
    }
    MappedFile(TreeAt(t, path).value, name, lfn, data);
    FileFound(fs, fs.dirs[k], Mapped(TreeAt(t, path).value), name, KernelName(name, lfn), data);
  }
}
