/**
 What a new file or folder does to a directory that has only ever grown (write_in_dir and mkdir_in_dir of
 xtask/src/fat32_write.rs).
 */
module FatCopy {
  import opened Base
  import opened Words
  import opened DirSlots
  import opened LongNames
  import opened Utf16
  import LongNameDir
  import opened FatTree

  // ---------------------------------------------------------------- directories that only ever grow

  /** `u` slots in use, then only slots never used. */
  ghost predicate Packed(slots: seq<Slot>, u: nat) {
    && u <= |slots| && Waiting(slots, u) == []
    && (forall i :: 0 <= i < u ==> !FreeSlot(slots[i])) && (forall i :: u <= i < |slots| ==> slots[i][0] == 0)
  }

  /** An entry with its parts, put after the used slots. */
  ghost predicate Put(slots: seq<Slot>, now: seq<Slot>, u: nat, ents: seq<Slot>, e: Slot) {
    && Packed(slots, u) && u + |ents| < |slots| && now == Placed(slots, u, ents, e)
    && (forall k :: 0 <= k < |ents| ==> PartSlot(ents[k])) && !FreeSlot(e) && e[11] != 0x0f && !Labelled(e[11])
  }

  /** The first room of a packed directory is its end. */
  lemma RoomAtUsed(slots: seq<Slot>, u: nat, start: nat, need: nat)
    requires Packed(slots, u) && FirstRoom(slots, start, need) && need > 0
    ensures start == u
  {
    assert FreeSlot(slots[start]);
    assert start > u ==> Room(slots, u, need);
  }

  lemma PutPacked(slots: seq<Slot>, now: seq<Slot>, u: nat, ents: seq<Slot>, e: Slot)
    requires Put(slots, now, u, ents, e)
    ensures Packed(now, u + |ents| + 1)
  {
    PlacedParts(slots, u, ents, e);
    NothingWaits(now, u + |ents| + 1);
    forall i | 0 <= i < u + |ents| + 1
      ensures !FreeSlot(now[i])
    {
      if i < u {
        assert now[i] == now[..u][i] == slots[..u][i];
      } else if i < u + |ents| {
        assert now[i] == now[u..u + |ents|][i - u];
      }
    }
  }

  /** The listing gains the entry at its end, unless it is one of the two dot entries. */
  lemma PutListed(slots: seq<Slot>, now: seq<Slot>, u: nat, ents: seq<Slot>, e: Slot, x: DirEnt)
    requires Put(slots, now, u, ents, e) && x == EntryFrom(e, Parts(ents))
    ensures List(now, 0, []) == List(slots, 0, []) + if IsDot(e[..11]) then [] else [x]
  {
    PutStart(slots, now, u, ents, e);
    PutTail(slots, now, u, ents, e, x);
  }

  lemma PutStart(slots: seq<Slot>, now: seq<Slot>, u: nat, ents: seq<Slot>, e: Slot)
    requires Put(slots, now, u, ents, e)
    ensures List(slots, 0, []) == List(slots[..u], 0, [])
    ensures List(now, 0, []) == List(slots[..u], 0, []) + List(now, u, [])
  {
    PlacedParts(slots, u, ents, e);
    forall j | 0 <= j < u
      ensures slots[j][0] != 0 && now[j] == slots[j]
    {
      assert now[j] == now[..u][j] == slots[..u][j];
      assert !FreeSlot(slots[j]);
    }
    ListSplits(slots, 0, u);
    ListSplits(now, 0, u);
    WaitingSame(slots, now, u);
    assert List(slots, u, []) == [];
    assert now[..u] == slots[..u];
  }

  lemma PutTail(slots: seq<Slot>, now: seq<Slot>, u: nat, ents: seq<Slot>, e: Slot, x: DirEnt)
    requires Put(slots, now, u, ents, e) && x == EntryFrom(e, Parts(ents))
    ensures List(now, u, []) == if IsDot(e[..11]) then [] else [x]
  {
    PutParts(slots, now, u, ents, e);
    PlacedParts(slots, u, ents, e);
    LastEntry(now, u + |ents|, Parts(ents), e, x);
  }

  lemma PutParts(slots: seq<Slot>, now: seq<Slot>, u: nat, ents: seq<Slot>, e: Slot)
    requires Put(slots, now, u, ents, e)
    ensures List(now, u, []) == List(now, u + |ents|, Parts(ents))
  {
    PlacedParts(slots, u, ents, e);
    NoneBefore(Parts(ents));
    ListParts(now, u, ents, [], u + |ents|, Parts(ents));
  }

  lemma LastEntry(now: seq<Slot>, i: nat, pending: seq<Part>, e: Slot, x: DirEnt)
    requires i < |now| && e == now[i] && !FreeSlot(e) && e[11] != 0x0f && !Labelled(e[11])
    requires i + 1 < |now| ==> now[i + 1][0] == 0
    requires x == EntryFrom(e, pending)
    ensures List(now, i, pending) == if IsDot(e[..11]) then [] else [x]
  {
    SlotAdds(e, pending);
    assert List(now, i + 1, []) == [];
  }

  lemma {:induction false} SearchInPrefix(a: seq<Slot>, b: seq<Slot>, i: nat, u: nat, n: Name, w: bool)
    requires i <= u <= |a| && u <= |b| && (forall j :: i <= j < u ==> a[j] == b[j])
    requires Search(a, i, n, w).Some? && Search(a, i, n, w).value < u
    ensures Search(b, i, n, w) == Search(a, i, n, w)
    decreases u - i
  {
    if i < u && !Fits(a[i], n, w) {
      SearchInPrefix(a, b, i + 1, u, n, w);
    }
  }

  /** What is found before is found still; the new entry is found under its own name if there was none. */
  lemma PutFinds(slots: seq<Slot>, now: seq<Slot>, u: nat, ents: seq<Slot>, e: Slot, n: Name, w: bool)
    requires Put(slots, now, u, ents, e)
    ensures Search(slots, 0, n, w).Some? ==> SameFound(slots, now, n, w)
    ensures Search(slots, 0, n, w).None? ==>
              Search(now, 0, n, w) == if n == e[..11] && w == IsDir(e[11]) then Some(u + |ents|) else None
    ensures now[u + |ents|] == e
  {
    PlacedParts(slots, u, ents, e);
    forall j | 0 <= j < u
      ensures now[j] == slots[j] && slots[j][0] != 0
    {
      assert now[j] == now[..u][j] == slots[..u][j];
      assert !FreeSlot(slots[j]);
    }
    var at := Search(slots, 0, n, w);
    if at.Some? {
      SearchInPrefix(slots, now, 0, u, n, w);
    } else {
      NotFoundBefore(slots, 0, u, n, w);
      forall j | 0 <= j < u + |ents|
        ensures now[j][0] != 0 && !Fits(now[j], n, w)
      {
        if j >= u {
          assert now[j] == now[u..u + |ents|][j - u];
        }
      }
      SearchSkips(now, 0, u + |ents|, n, w);
      Ended(now, u + |ents| + 1, n, w);
    }
  }

  lemma InstalledPut(slots: seq<Slot>, now: seq<Slot>, name: Name, cluster: nat, size: nat, attr: byte, lfn: Option<Long>,
                     start: nat, ents: seq<Slot>, u: nat)
    requires lfn.Some? ==> |lfn.value| <= UNITS * MAX_PARTS && Plain(lfn.value) && Paired(lfn.value)
    requires LongNameDir.Installed(slots, now, name, cluster, size, attr, lfn, start, ents) && Packed(slots, u)
    requires name[0] != 0 && name[0] != 0xe5 && attr != 0x0f && !Labelled(attr)
    ensures start == u && Put(slots, now, u, ents, EntrySlot(name, attr, cluster, size))
    ensures Take(Parts(ents), name) == lfn
  {
    RoomAtUsed(slots, u, start, |ents| + 1);
    if lfn.Some? {
      forall k | 0 <= k < |ents|
        ensures PartSlot(ents[k])
      {
        EncodedPart(ents, lfn.value, SumOf(name), k);
      }
      TakeEncoded(ents, lfn.value, name);
      CleanIff(lfn.value);
    }
  }

  lemma EntryFields(name: Name, attr: byte, cluster: nat, size: nat)
    requires cluster < 0x1_0000_0000 && size < 0x1_0000_0000
    ensures ClusterOf(EntrySlot(name, attr, cluster, size)) == cluster && FileSize(EntrySlot(name, attr, cluster, size), 0) == size
  {
    var e := EntrySlot(name, attr, cluster, size);
    assert e[20..22] == LE(cluster / 0x1_0000, 2);
    assert e[26..28] == LE(cluster, 2);
    assert e[28..32] == LE(size, 4);
    FieldsOf(e, cluster, size);
  }

  // ---------------------------------------------------------------- steps

  /** What writing a file or making a folder does to the directory `c`; `k` is the new cluster. */
  datatype Step = Step(c: nat, k: nat, now: seq<Slot>, start: nat, ents: seq<Slot>)

  ghost predicate Wrote(was: Fs, now: Fs, root: nat, path: seq<Name>, name: Name, data: Bytes, lfn: Option<Long>, s: Step)
    requires lfn.Some? ==> |lfn.value| <= UNITS * NUMBERED
  {
    && Resolve(was, root, path) == Some(s.c) && Search(was.dirs[s.c], 0, name, false).None? && data != []
    && 2 <= s.k < 0x1000_0000 && s.k !in was.dirs && s.k !in was.files
    && LongNameDir.Installed(was.dirs[s.c], s.now, name, s.k, |data|, FILE_ATTR, lfn, s.start, s.ents)
    && now == Fs(was.dirs[s.c := s.now], was.files[s.k := data])
  }

  /** How many slots an entry takes with its long name. */
  function Places(lfn: Option<Long>): nat {
    match lfn
    case None => 1
    case Some(long) => |Padded(long)| / UNITS + 1
  }

  /** A new folder's slots: the two dot entries. */
  ghost predicate NewFolder(slots: seq<Slot>, k: nat, parent: nat) {
    exists n: nat, one: seq<Slot>, a: nat, b: nat ::
      n > 0 && LongNameDir.Installed(Blank(n), one, DOT, k, 0, DIR_ATTR, None, a, [])
      && LongNameDir.Installed(one, slots, DOTDOT, parent, 0, DIR_ATTR, None, b, [])
  }

  ghost predicate Made(was: Fs, now: Fs, root: nat, path: seq<Name>, name: Name, s: Step, folder: seq<Slot>) {
    && Resolve(was, root, path) == Some(s.c) && Search(was.dirs[s.c], 0, name, true).None?
    && 2 <= s.k < 0x1000_0000 && s.k !in was.dirs && s.k !in was.files && NewFolder(folder, s.k, s.c)
    && LongNameDir.Installed(was.dirs[s.c], s.now, name, s.k, 0, DIR_ATTR, None, s.start, s.ents) && s.ents == []
    && now == Fs(was.dirs[s.k := folder][s.c := s.now], was.files)
  }

  lemma DotTexts()
    ensures DOT == Ascii(".          ") && DOTDOT == Ascii("..         ")
  {
  }

  lemma DotBytes()
    ensures DOT != DOTDOT && DOT[0] == 0x2e && DOTDOT[0] == 0x2e && !Labelled(DIR_ATTR) && IsDir(DIR_ATTR) && DIR_ATTR != 0x0f
  {
    assert DOT[1] != DOTDOT[1];
  }

  /** A new entry of a folder is found under its name, with its cluster. */
  lemma PutFolder(slots: seq<Slot>, now: seq<Slot>, name: Name, cluster: nat, start: nat, u: nat)
    requires LongNameDir.Installed(slots, now, name, cluster, 0, DIR_ATTR, None, start, []) && Packed(slots, u)
    requires name[0] == 0x2e && Search(slots, 0, name, true).None? && cluster < 0x1_0000_0000
    ensures Packed(now, u + 1) && u < |now| == |slots|
    ensures Search(now, 0, name, true) == Some(u) && ClusterOf(now[u]) == cluster
    ensures forall m: Name :: m != name && Search(slots, 0, m, true).None? ==> Search(now, 0, m, true).None?
    ensures forall m: Name :: Search(slots, 0, m, true).Some? ==> SameFound(slots, now, m, true)
  {
    DotBytes();
    InstalledPut(slots, now, name, cluster, 0, DIR_ATTR, None, start, [], u);
    var e: Slot := EntrySlot(name, DIR_ATTR, cluster, 0);
    PutPacked(slots, now, u, [], e);
    EntryFields(name, DIR_ATTR, cluster, 0);
    PutFinds(slots, now, u, [], e, name, true);
    forall m: Name | true
      ensures m != name && Search(slots, 0, m, true).None? ==> Search(now, 0, m, true).None?
      ensures Search(slots, 0, m, true).Some? ==> SameFound(slots, now, m, true)
    {
      PutFinds(slots, now, u, [], e, m, true);
    }
  }

  /** In a new folder "." names the folder itself and ".." the directory it was made in. */
  lemma FolderDots(slots: seq<Slot>, k: nat, parent: nat)
    requires NewFolder(slots, k, parent) && k < 0x1_0000_0000 && parent < 0x1_0000_0000
    ensures |slots| >= 2 && Search(slots, 0, Ascii(".          "), true) == Some(0) && ClusterOf(slots[0]) == k
    ensures Search(slots, 0, Ascii("..         "), true) == Some(1) && ClusterOf(slots[1]) == parent
  {
    DotTexts();
    var n: nat, one: seq<Slot>, a: nat, b: nat :|
      n > 0 && LongNameDir.Installed(Blank(n), one, DOT, k, 0, DIR_ATTR, None, a, [])
      && LongNameDir.Installed(one, slots, DOTDOT, parent, 0, DIR_ATTR, None, b, []);
    DotBytes();
    assert Packed(Blank(n), 0);
    PutFolder(Blank(n), one, DOT, k, a, 0);
    PutFolder(one, slots, DOTDOT, parent, b, 1);
    assert SameFound(one, slots, DOT, true);
  }

  /** From a folder just made, "." stays in it and ".." leads back to where it was made. */
  lemma LeadsBack(was: Fs, now: Fs, root: nat, path: seq<Name>, name: Name, s: Step, folder: seq<Slot>)
    requires Made(was, now, root, path, name, s, folder) && 2 <= s.c < 0x1_0000_0000
    ensures Resolve(now, s.k, [Ascii(".          ")]) == Some(s.k)
    ensures Resolve(now, s.k, [Ascii("..         ")]) == Some(s.c)
  {
    FolderDots(folder, s.k, s.c);
    assert now.dirs[s.k] == folder && s.c in now.dirs;
  }
}
