/**
 A FAT volume as directories of slots and file contents, and the copy of a whole tree between two of them
 (copy_fat_partition of xtask/src/fat32_write.rs). Directories and files are named by their first
 cluster; FatShown says when the bytes of an image show these directories and files.
 */
module FatTree {
  import opened Base
  import opened DirSlots
  import opened LongNames
  import opened Utf16

  datatype Fs = Fs(dirs: map<nat, seq<Slot>>, files: map<nat, Bytes>)

  /** The contents of a directory, entry by entry. */
  datatype Tree =
    | Nil
    | File(name: Name, lfn: Option<Long>, data: Bytes, rest: Tree)
    | Folder(name: Name, lfn: Option<Long>, sub: Tree, rest: Tree)

  const KERNEL_SHORT: Name := [0x4b, 0x45, 0x52, 0x4e, 0x45, 0x4c, 0x7e, 0x31, 0x20, 0x20, 0x20]
  const KERNEL_LONG: Long := [0x6b, 0x65, 0x72, 0x6e, 0x65, 0x6c, 0x2d, 0x78, 0x38, 0x36, 0x5f, 0x36, 0x34]
  const DOT: Name := [0x2e, 0x20, 0x20, 0x20, 0x20, 0x20, 0x20, 0x20, 0x20, 0x20, 0x20]
  const DOTDOT: Name := [0x2e, 0x2e, 0x20, 0x20, 0x20, 0x20, 0x20, 0x20, 0x20, 0x20, 0x20]

  const FILE_ATTR: byte := 0x20
  const DIR_ATTR: byte := 0x10

  /** The cluster in a slot's entry. */
  function ClusterOf(e: Slot): nat {
    FirstCluster(e, 0)
  }

  // ---------------------------------------------------------------- what a directory holds

  function Listing(t: Tree): seq<DirEnt> {
    match t
    case Nil => []
    case File(n, l, _, rest) => [DirEnt(n, false, l)] + Listing(rest)
    case Folder(n, l, _, rest) => [DirEnt(n, true, l)] + Listing(rest)
  }

  predicate FileIn(fs: Fs, slots: seq<Slot>, name: Name, data: Bytes) {
    match Search(slots, 0, name, false)
    case None => false
    case Some(j) => FileSize(slots[j], 0) == |data| && (data != [] ==> ClusterOf(slots[j]) in fs.files && fs.files[ClusterOf(slots[j])] == data)
  }

  /** The files and folders of the tree are found by name. */
  ghost predicate Under(fs: Fs, slots: seq<Slot>, t: Tree)
    decreases t, 0
  {
    match t
    case Nil => true
    case File(n, _, data, rest) => FileIn(fs, slots, n, data) && Under(fs, slots, rest)
    case Folder(n, _, sub, rest) =>
      && (match Search(slots, 0, n, true) case None => false case Some(j) => ClusterOf(slots[j]) >= 2 && HoldsTree(fs, ClusterOf(slots[j]), sub))
      && Under(fs, slots, rest)
  }

  /** The directory at cluster `c` lists exactly the tree's entries, in order, with their contents. */
  ghost predicate HoldsTree(fs: Fs, c: nat, t: Tree)
    decreases t, 1
  {
    c in fs.dirs && List(fs.dirs[c], 0, []) == Listing(t) && Under(fs, fs.dirs[c], t)
  }

  predicate Has(t: Tree, name: Name, isDir: bool) {
    match t
    case Nil => false
    case File(n, _, _, rest) => (n == name && !isDir) || Has(rest, name, isDir)
    case Folder(n, _, _, rest) => (n == name && isDir) || Has(rest, name, isDir)
  }

  /** A name that a listing shows and that can be written, with a long name the parts can hold. */
  predicate GoodName(name: Name, lfn: Option<Long>) {
    && Shown(name, FILE_ATTR) && Shown(name, DIR_ATTR)
    && (lfn.Some? ==> |lfn.value| <= UNITS * MAX_PARTS && Plain(lfn.value) && Paired(lfn.value))
  }

  /** In every directory each name occurs once among the files and once among the folders, and no long name has more units
      than can be written. */
  predicate Copyable(t: Tree) {
    match t
    case Nil => true
    case File(n, l, _, rest) => NotTooLong(l) && !Has(rest, n, false) && Copyable(rest)
    case Folder(n, l, sub, rest) => NotTooLong(l) && !Has(rest, n, true) && Copyable(sub) && Copyable(rest)
  }

  predicate NotTooLong(lfn: Option<Long>) {
    lfn.Some? ==> |lfn.value| <= UNITS * MAX_PARTS
  }

  /** The rest holds of every tree that a volume lists. */
  lemma {:induction false} ListedSound(fs: Fs, slots: seq<Slot>, t: Tree, k: nat)
    requires Copyable(t) && Under(fs, slots, t)
    requires k <= |List(slots, 0, [])| && Listing(t) == List(slots, 0, [])[k..]
    ensures Sound(t)
    decreases t
  {
    if !t.Nil? {
      assert Listing(t)[0] == List(slots, 0, [])[k] && Listing(t)[1..] == List(slots, 0, [])[k + 1..];
      ListedGood(slots, 0, [], k);
      ListedSound(fs, slots, t.rest, k + 1);
      if t.Folder? {
        var c := ClusterOf(slots[Search(slots, 0, t.name, true).value]);
        ListedSound(fs, fs.dirs[c], t.sub, 0);
      }
    }
  }

  /** In every directory each name occurs once among the files and once among the folders. */
  predicate Sound(t: Tree) {
    match t
    case Nil => true
    case File(n, l, _, rest) => GoodName(n, l) && !Has(rest, n, false) && Sound(rest)
    case Folder(n, l, sub, rest) => GoodName(n, l) && !Has(rest, n, true) && Sound(sub) && Sound(rest)
  }

  /** What becomes of a long name: the kernel's is supplied, folders lose theirs. */
  function KernelName(name: Name, lfn: Option<Long>): Option<Long> {
    if lfn.Some? then lfn else if name == KERNEL_SHORT then Some(KERNEL_LONG) else None
  }

  lemma KernelTexts(name: Name, lfn: Option<Long>)
    ensures KernelName(name, lfn) ==
            if lfn.None? && name == Ascii("KERNEL~1   ") then Some(UnitsOf("kernel-x86_64")) else lfn
  {
    assert KERNEL_SHORT == Ascii("KERNEL~1   ");
    assert KERNEL_LONG == UnitsOf("kernel-x86_64");
  }

  function Mapped(t: Tree): Tree {
    match t
    case Nil => Nil
    case File(n, l, data, rest) => File(n, KernelName(n, l), data, Mapped(rest))
    case Folder(n, l, sub, rest) => Folder(n, None, Mapped(sub), Mapped(rest))
  }

  /** Folders have no long names, and the kernel has one. */
  predicate Unaffected(t: Tree) {
    match t
    case Nil => true
    case File(n, l, _, rest) => (n == KERNEL_SHORT ==> l.Some?) && Unaffected(rest)
    case Folder(_, l, sub, rest) => l.None? && Unaffected(sub) && Unaffected(rest)
  }

  /** No file of the tree is empty. */
  predicate NoneEmpty(t: Tree) {
    match t
    case Nil => true
    case File(_, _, data, rest) => data != [] && NoneEmpty(rest)
    case Folder(_, _, sub, rest) => NoneEmpty(sub) && NoneEmpty(rest)
  }

  /** A copy has the names of its source exactly when no folder has a long name and the kernel has one. */
  lemma {:induction false} MappedIff(t: Tree)
    ensures Mapped(t) == t <==> Unaffected(t)
  {
    match t
    case Nil =>
    case File(_, _, _, rest) => MappedIff(rest);
    case Folder(_, _, sub, rest) =>
      MappedIff(sub);
      MappedIff(rest);
  }

  function Append(a: Tree, b: Tree): Tree {
    match a
    case Nil => b
    case File(n, l, data, rest) => File(n, l, data, Append(rest, b))
    case Folder(n, l, sub, rest) => Folder(n, l, sub, Append(rest, b))
  }

  lemma {:induction false} Appended(a: Tree, b: Tree, name: Name, isDir: bool)
    ensures Listing(Append(a, b)) == Listing(a) + Listing(b)
    ensures Mapped(Append(a, b)) == Append(Mapped(a), Mapped(b))
    ensures Has(Append(a, b), name, isDir) <==> Has(a, name, isDir) || Has(b, name, isDir)
    ensures NoneEmpty(Append(a, b)) <==> NoneEmpty(a) && NoneEmpty(b)
  {
    if !a.Nil? {
      Appended(a.rest, b, name, isDir);
    }
  }

  lemma {:induction false} AppendNil(a: Tree)
    ensures Append(a, Nil) == a
  {
    if !a.Nil? {
      AppendNil(a.rest);
    }
  }

  lemma {:induction false} AppendAssoc(a: Tree, b: Tree, c: Tree)
    ensures Append(Append(a, b), c) == Append(a, Append(b, c))
  {
    if !a.Nil? {
      AppendAssoc(a.rest, b, c);
    }
  }

  lemma {:induction false} UnderAppend(fs: Fs, slots: seq<Slot>, a: Tree, b: Tree)
    ensures Under(fs, slots, Append(a, b)) <==> Under(fs, slots, a) && Under(fs, slots, b)
  {
    if !a.Nil? {
      UnderAppend(fs, slots, a.rest, b);
    }
  }

  /** A name still to come was not used before. */
  lemma {:induction false} SoundAppend(a: Tree, b: Tree)
    requires Sound(Append(a, b))
    ensures Sound(b)
    ensures forall n, w :: Has(b, n, w) ==> !Has(a, n, w)
  {
    if !a.Nil? {
      SoundAppend(a.rest, b);
      Appended(a.rest, b, a.name, a.Folder?);
    }
  }

  // ---------------------------------------------------------------- paths

  function Resolve(fs: Fs, c: nat, path: seq<Name>): (r: Option<nat>)
    ensures r.Some? ==> r.value in fs.dirs
    decreases |path|
  {
    if c !in fs.dirs then None
    else if path == [] then Some(c)
    else
      match Search(fs.dirs[c], 0, path[0], true)
      case None => None
      case Some(j) => if ClusterOf(fs.dirs[c][j]) < 2 then None else Resolve(fs, ClusterOf(fs.dirs[c][j]), path[1..])
  }

  /** Every folder found on the way is one of the known directories. */
  predicate Reaches(fs: Fs, c: nat, path: seq<Name>)
    decreases |path|
  {
    && c in fs.dirs
    && (path != [] ==>
          match Search(fs.dirs[c], 0, path[0], true)
          case None => true
          case Some(j) => ClusterOf(fs.dirs[c][j]) >= 2 && Reaches(fs, ClusterOf(fs.dirs[c][j]), path[1..]))
  }

  /** A path leads into a cluster. */
  lemma {:induction false} ResolveFar(fs: Fs, c: nat, path: seq<Name>)
    requires Resolve(fs, c, path).Some? && (c >= 2 || path != [])
    ensures Resolve(fs, c, path).value >= 2
    decreases |path|
  {
    if path != [] {
      ResolveFar(fs, ClusterOf(fs.dirs[c][Search(fs.dirs[c], 0, path[0], true).value]), path[1..]);
    }
  }

  lemma {:induction false} ResolveReaches(fs: Fs, c: nat, path: seq<Name>)
    requires Resolve(fs, c, path).Some?
    ensures Reaches(fs, c, path)
    decreases |path|
  {
    if path != [] {
      ResolveReaches(fs, ClusterOf(fs.dirs[c][Search(fs.dirs[c], 0, path[0], true).value]), path[1..]);
    }
  }

  /** The directories searched on the way. */
  function Visited(fs: Fs, c: nat, path: seq<Name>): (v: set<nat>)
    ensures forall x :: x in v ==> x in fs.dirs
    decreases |path|
  {
    if c !in fs.dirs || path == [] then {}
    else
      match Search(fs.dirs[c], 0, path[0], true)
      case None => {c}
      case Some(j) => {c} + Visited(fs, ClusterOf(fs.dirs[c][j]), path[1..])
  }

  lemma {:induction false} ResolveOn(fs: Fs, c: nat, path: seq<Name>, d: nat, name: Name, j: nat)
    requires Resolve(fs, c, path) == Some(d) && Search(fs.dirs[d], 0, name, true) == Some(j) && ClusterOf(fs.dirs[d][j]) >= 2
    ensures Resolve(fs, c, path + [name]) == Resolve(fs, ClusterOf(fs.dirs[d][j]), [])
    ensures Visited(fs, c, path + [name]) == Visited(fs, c, path) + {d}
    decreases |path|
  {
    if path == [] {
      assert ([] + [name])[1..] == [];
    } else {
      assert (path + [name])[1..] == path[1..] + [name];
      var k := Search(fs.dirs[c], 0, path[0], true).value;
      ResolveOn(fs, ClusterOf(fs.dirs[c][k]), path[1..], d, name, j);
    }
  }

  /** A path through directories that do not change leads to the same one. */
  lemma {:induction false} ResolveKept(fs: Fs, now: Fs, c: nat, path: seq<Name>)
    requires Resolve(fs, c, path).Some?
    requires forall x :: x in Visited(fs, c, path) ==> x in now.dirs && now.dirs[x] == fs.dirs[x]
    requires Resolve(fs, c, path).value in now.dirs
    ensures Resolve(now, c, path) == Resolve(fs, c, path) && Visited(now, c, path) == Visited(fs, c, path)
    decreases |path|
  {
    if path != [] {
      var k := Search(fs.dirs[c], 0, path[0], true).value;
      ResolveKept(fs, now, ClusterOf(fs.dirs[c][k]), path[1..]);
    }
  }

  // ---------------------------------------------------------------- footprints

  /** The directories below. */
  function FootUnder(fs: Fs, slots: seq<Slot>, t: Tree): set<nat>
    decreases t
  {
    match t
    case Nil => {}
    case File(_, _, _, rest) => FootUnder(fs, slots, rest)
    case Folder(n, _, sub, rest) =>
      (match Search(slots, 0, n, true)
       case None => {}
       case Some(j) =>
         var k := ClusterOf(slots[j]);
         {k} + if k in fs.dirs then FootUnder(fs, fs.dirs[k], sub) else {})
      + FootUnder(fs, slots, rest)
  }

  predicate FilesKept(fs: Fs, now: Fs) {
    forall x :: x in fs.files ==> x in now.files && now.files[x] == fs.files[x]
  }

  predicate SameSearches(a: seq<Slot>, b: seq<Slot>, t: Tree) {
    match t
    case Nil => true
    case File(n, _, _, rest) => SameFound(a, b, n, false) && SameSearches(a, b, rest)
    case Folder(n, _, _, rest) => SameFound(a, b, n, true) && SameSearches(a, b, rest)
  }

  /** The name leads to the same slot with the same bytes. */
  predicate SameFound(a: seq<Slot>, b: seq<Slot>, n: Name, w: bool) {
    && Search(b, 0, n, w) == Search(a, 0, n, w)
    && (Search(a, 0, n, w).Some? ==> b[Search(a, 0, n, w).value] == a[Search(a, 0, n, w).value])
  }

  /** A tree whose directories are untouched is still there, also when other entries join its own directory. */
  lemma {:induction false} UnderKept(fs: Fs, now: Fs, slots: seq<Slot>, slots': seq<Slot>, t: Tree)
    requires Under(fs, slots, t) && FilesKept(fs, now) && SameSearches(slots, slots', t)
    requires forall x :: x in FootUnder(fs, slots, t) ==> x in fs.dirs && x in now.dirs && now.dirs[x] == fs.dirs[x]
    ensures Under(now, slots', t) && FootUnder(now, slots', t) == FootUnder(fs, slots, t)
    decreases t
  {
    match t
    case Nil =>
    case File(n, _, data, rest) => UnderKept(fs, now, slots, slots', rest);
    case Folder(n, _, sub, rest) =>
      UnderKept(fs, now, slots, slots', rest);
      var k := ClusterOf(slots[Search(slots, 0, n, true).value]);
      SameItself(fs.dirs[k], sub);
      UnderKept(fs, now, fs.dirs[k], fs.dirs[k], sub);
  }

  lemma {:induction false} SameItself(slots: seq<Slot>, t: Tree)
    ensures SameSearches(slots, slots, t)
  {
    if !t.Nil? {
      SameItself(slots, t.rest);
    }
  }
}
