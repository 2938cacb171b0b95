/**
 What a copy of a tree (copy_fat_partition of xtask/src/fat32_write.rs) takes of the destination: clusters, and slots in
 every directory.
 */
module FatSpace {
  import opened Base
  import opened DirSlots
  import opened FatTable
  import opened FatVolume
  import opened LongNames
  import opened FatTree
  import opened FatCopy
  import opened FatDisk
  import FatFiles
  import LongNameDir

  // ---------------------------------------------------------------- clusters

  /** Every cluster below `p` is in use, and none from `p` on, as on a volume to which files have only been added. */
  predicate FreeFrom(t: Table, p: nat) {
    2 <= p <= |t| && (forall x :: 2 <= x < p ==> t[x] != 0) && (forall x :: p <= x < |t| ==> t[x] == 0)
  }

  lemma FreeFromOnce(t: Table, p: nat, q: nat)
    requires FreeFrom(t, p) && FreeFrom(t, q)
    ensures p == q
  {
    assert p < |t| ==> t[p] == 0;
    assert q < |t| ==> t[q] == 0;
  }

  /** A run is found exactly if the free clusters suffice, and it is the first of them. */
  lemma FreeRuns(t: Table, p: nat, n: nat, s: nat)
    requires FreeFrom(t, p) && n > 0
    ensures NoRun(t, n) <==> p + n > |t|
    ensures FirstRun(t, s, n) ==> s == p
  {
    if p + n <= |t| {
      assert RunFree(t, p, n);
    }
    forall r: nat | RunFree(t, r, n)
      ensures p <= r
    {
      assert t[r] == 0;
    }
  }

  lemma MarkedFrom(k: Kind, t: Table, p: nat, n: nat)
    requires FreeFrom(t, p) && p + n <= |t|
    ensures FreeFrom(Marked(k, t, p, n), p + n)
  {
  }

  // ---------------------------------------------------------------- slots

  lemma PackedOnce(slots: seq<Slot>, u: nat, v: nat)
    requires Packed(slots, u) && Packed(slots, v)
    ensures u == v
  {
    assert u < |slots| ==> FreeSlot(slots[u]);
    assert v < |slots| ==> FreeSlot(slots[v]);
  }

  lemma PackedRoom(slots: seq<Slot>, u: nat, need: nat)
    requires Packed(slots, u) && need > 0
    ensures LongNameDir.NoRoom(slots, need) <==> u + need > |slots|
  {
    if u + need <= |slots| {
      assert Room(slots, u, need);
    }
    forall s: nat | Room(slots, s, need)
      ensures u + need <= |slots|
    {
      assert FreeSlot(slots[s]);
    }
  }

  // ---------------------------------------------------------------- what a tree takes

  /** The clusters of the files, and one for each folder. */
  function Cost(t: Tree, clusterBytes: nat): nat
    requires clusterBytes > 0
  {
    match t
    case Nil => 0
    case File(_, _, data, rest) => ClustersNeeded(|data|, clusterBytes) + Cost(rest, clusterBytes)
    case Folder(_, _, sub, rest) => 1 + Cost(sub, clusterBytes) + Cost(rest, clusterBytes)
  }

  /** The slots of the entries themselves, with the long names of files. */
  function SlotsOf(t: Tree): nat {
    match t
    case Nil => 0
    case File(n, l, _, rest) => Places(KernelName(n, l)) + SlotsOf(rest)
    case Folder(_, _, _, rest) => 1 + SlotsOf(rest)
  }

  /** The entries of every folder and its two dot entries fit in one cluster, which never grows. */
  predicate RoomsFit(t: Tree, cap: nat) {
    match t
    case Nil => true
    case File(_, _, _, rest) => RoomsFit(rest, cap)
    case Folder(_, _, sub, rest) => 2 + SlotsOf(sub) <= cap && RoomsFit(sub, cap) && RoomsFit(rest, cap)
  }

  /** Every file of the source is found and accepted as contiguous. */
  ghost predicate Readable(img: Bytes, vol: Vol, path: seq<Name>, t: Tree)
    decreases t
  {
    match t
    case Nil => true
    case File(n, _, _, rest) =>
      FatFiles.PathToFile(img, vol, path, n) && FatFiles.Locate(img, vol, path, n).Ok? && Readable(img, vol, path, rest)
    case Folder(n, _, sub, rest) => Readable(img, vol, path + [n], sub) && Readable(img, vol, path, rest)
  }

  /** The destination: clusters, bytes of one, and slots of a folder. */
  datatype Limits = Limits(clusters: nat, bytes: nat, slots: nat)

  /** The tree can be copied into a directory with `m` slots, `u` of them used, when the clusters from `p` on are free. */
  ghost predicate Enough(img: Bytes, vol: Vol, path: seq<Name>, t: Tree, lim: Limits, p: nat, u: nat, m: nat)
    requires lim.bytes > 0
  {
    && Readable(img, vol, path, t) && NoneEmpty(t)
    && p + Cost(t, lim.bytes) <= lim.clusters && u + SlotsOf(t) <= m && RoomsFit(t, lim.slots)
  }

  lemma {:induction false} Added(img: Bytes, vol: Vol, path: seq<Name>, a: Tree, b: Tree, lim: Limits)
    requires lim.bytes > 0
    ensures Cost(Append(a, b), lim.bytes) == Cost(a, lim.bytes) + Cost(b, lim.bytes)
    ensures SlotsOf(Append(a, b)) == SlotsOf(a) + SlotsOf(b)
    ensures RoomsFit(Append(a, b), lim.slots) <==> RoomsFit(a, lim.slots) && RoomsFit(b, lim.slots)
    ensures Readable(img, vol, path, Append(a, b)) <==> Readable(img, vol, path, a) && Readable(img, vol, path, b)
    ensures NoneEmpty(Append(a, b)) <==> NoneEmpty(a) && NoneEmpty(b)
    decreases a
  {
    if !a.Nil? {
      Added(img, vol, path, a.rest, b, lim);
    }
  }

  /** A place in the copy: the clusters from `p` on are free, and the directory being filled has `u` of `m` slots in use.
      Nothing is known of the free clusters unless `known`. */
  datatype Mark = Mark(known: bool, p: nat, u: nat, m: nat)

  function LimitsOf(vol: Vol): (lim: Limits)
    requires vol.spc > 0
    ensures lim.bytes > 0
  {
    Limits(Entries(vol), ClusterBytes(vol), SLOTS * vol.spc)
  }

  /** The place after a part of a directory has been copied. */
  function After(g: Mark, t: Tree, lim: Limits): Mark
    requires lim.bytes > 0
  {
    g.(p := g.p + Cost(t, lim.bytes), u := g.u + SlotsOf(t))
  }

  ghost predicate SpaceLeft(img: Bytes, vol: Vol, fs: Fs, c: nat, g: Mark) {
    g.known ==>
      && Holds(img, vol) && FreeFrom(Fat(img, vol), g.p)
      && c in fs.dirs && Packed(fs.dirs[c], g.u) && |fs.dirs[c]| == g.m
  }

  ghost predicate Suffices(img: Bytes, vol: Vol, path: seq<Name>, t: Tree, lim: Limits, g: Mark)
    requires lim.bytes > 0
  {
    Enough(img, vol, path, t, lim, g.p, g.u, g.m)
  }

  /** One entry more. */
  lemma NextEntry(img: Bytes, vol: Vol, path: seq<Name>, done: Tree, one: Tree, rest: Tree, t: Tree, lim: Limits, g: Mark)
    requires lim.bytes > 0 && t == Append(Append(done, one), rest)
    ensures After(After(g, done, lim), one, lim) == After(g, Append(done, one), lim)
    ensures Suffices(img, vol, path, Append(done, one), lim, g) <==>
            Suffices(img, vol, path, done, lim, g) && Suffices(img, vol, path, one, lim, After(g, done, lim))
    ensures Suffices(img, vol, path, t, lim, g) ==> Suffices(img, vol, path, Append(done, one), lim, g)
  {
    Added(img, vol, path, done, one, lim);
    EnoughInTurn(img, vol, path, done, one, lim, g.p, g.u, g.m);
    EnoughInTurn(img, vol, path, Append(done, one), rest, lim, g.p, g.u, g.m);
  }

  lemma NothingTaken(img: Bytes, vol: Vol, path: seq<Name>, at: Bytes, dst: Vol, fs: Fs, c: nat, g: Mark)
    requires Holds(at, dst) && SpaceLeft(at, dst, fs, c, g)
    ensures After(g, Nil, LimitsOf(dst)) == g
    ensures g.known ==> Suffices(img, vol, path, Nil, LimitsOf(dst), g)
  {
  }

  /** After clusters have been marked and an entry put into the directory. */
  lemma SpaceTaken(was: Bytes, now: Bytes, vol: Vol, fs: Fs, after: Fs, c: nat, g: Mark, k: nat, n: nat, u: nat,
                   ents: seq<Slot>, e: Slot, h: Mark)
    requires h == g.(p := g.p + n, u := g.u + |ents| + 1)
    requires SpaceLeft(was, vol, fs, c, g) && Marks(was, now, vol, k, n) && n > 0
    requires c in fs.dirs && c in after.dirs && Put(fs.dirs[c], after.dirs[c], u, ents, e)
    ensures SpaceLeft(now, vol, after, c, h)
    ensures g.known ==> k == g.p && u == g.u && FreeFrom(Fat(now, vol), g.p + n)
  {
    if g.known {
      FreeRuns(Fat(was, vol), g.p, n, k);
      MarkedFrom(vol.kind, Fat(was, vol), g.p, n);
      PackedOnce(fs.dirs[c], u, g.u);
      PutPacked(fs.dirs[c], after.dirs[c], u, ents, e);
    }
  }

  /** There is enough for two parts of a directory exactly when there is for the first, and then for the second. */
  lemma EnoughInTurn(img: Bytes, vol: Vol, path: seq<Name>, a: Tree, b: Tree, lim: Limits, p: nat, u: nat, m: nat)
    requires lim.bytes > 0
    ensures Enough(img, vol, path, Append(a, b), lim, p, u, m) <==>
            Enough(img, vol, path, a, lim, p, u, m)
            && Enough(img, vol, path, b, lim, p + Cost(a, lim.bytes), u + SlotsOf(a), m)
  {
    Added(img, vol, path, a, b, lim);
    var x, y := Cost(a, lim.bytes), Cost(b, lim.bytes);
    InTurn(p, x, y, Cost(Append(a, b), lim.bytes), lim.clusters);
    InTurn(u, SlotsOf(a), SlotsOf(b), SlotsOf(Append(a, b)), m);
  }

  lemma InTurn(p: nat, x: nat, y: nat, z: nat, top: nat)
    requires z == x + y
    ensures p + z <= top <==> p + x <= top && p + x + y <= top
  {
  }
}
