/**
 The 32-byte slots of a directory as xtask/src/fat32_write.rs reads and writes them, and the search for
 a name in a sequence of them (Microsoft FAT32 File System Specification 1.03, section "FAT Directory
 Structure").
 */
module DirSlots {
  import opened Base
  import opened Words

  const SLOT: nat := 32

  type Name = n: Bytes | |n| == 11 witness [0, 0, 0, 0, 0, 0, 0, 0, 0, 0, 0]

  function Num(img: Bytes, off: nat, w: nat): nat
    requires off + w <= |img|
  {
    FromLE(img[off..off + w])
  }

  predicate Labelled(attr: byte) {
    attr / 8 % 2 == 1
  }

  predicate IsDir(attr: byte) {
    attr / 16 % 2 == 1
  }

  predicate NotAFile(first: byte, attr: byte) {
    first == 0xe5 || attr % 16 == 15 || Labelled(attr)
  }

  function FirstCluster(img: Bytes, s: nat): nat
    requires s + SLOT <= |img|
  {
    Num(img, s + 20, 2) * 0x1_0000 + Num(img, s + 26, 2)
  }

  function FileSize(img: Bytes, s: nat): nat
    requires s + SLOT <= |img|
  {
    Num(img, s + 28, 4)
  }

  type Slot = s: Bytes | |s| == 32 witness Zeros(32)

  predicate FreeSlot(e: Slot) {
    e[0] == 0 || e[0] == 0xe5
  }

  predicate Fits(e: Slot, name: Name, wantDir: bool) {
    !NotAFile(e[0], e[11]) && e[..11] == name && wantDir == IsDir(e[11])
  }

  /** The first slot that fits, from `i` on and before the end mark. */
  function Search(slots: seq<Slot>, i: nat, name: Name, wantDir: bool): (r: Option<nat>)
    requires i <= |slots|
    ensures r.Some? ==> i <= r.value < |slots| && slots[r.value][0] != 0 && Fits(slots[r.value], name, wantDir)
    decreases |slots| - i
  {
    if i == |slots| || slots[i][0] == 0 then None
    else if Fits(slots[i], name, wantDir) then Some(i)
    else Search(slots, i + 1, name, wantDir)
  }

  // ---------------------------------------------------------------- a new entry

  /** The first free slot, if any. */
  predicate FirstFree(slots: seq<Slot>, r: Option<nat>) {
    match r
    case None => forall i :: 0 <= i < |slots| ==> !FreeSlot(slots[i])
    case Some(k) => k < |slots| && FreeSlot(slots[k]) && forall i :: 0 <= i < k ==> !FreeSlot(slots[i])
  }

  /** Once a slot begins with zero, so do all that follow. */
  predicate Tidy(slots: seq<Slot>) {
    forall i, j :: 0 <= i < j < |slots| && slots[i][0] == 0 ==> slots[j][0] == 0
  }

  /** The slot of a new file over the old contents of the slot. */
  function NewSlot(was: Slot, name: Name, cluster: nat, size: nat): (e: Slot)
    ensures e[0] == name[0] && e[11] == 0x20 && e[..11] == name
  {
    name + [0x20] + was[12..20] + LE(cluster / 0x1_0000, 2) + was[22..26] + LE(cluster, 2) + LE(size, 4)
  }

  lemma NewSlotFields(e: Slot, name: Name, cluster: nat, size: nat)
    requires cluster < 0x1_0000_0000 && size < 0x1_0000_0000
    ensures FirstCluster(NewSlot(e, name, cluster, size), 0) == cluster
    ensures FileSize(NewSlot(e, name, cluster, size), 0) == size
  {
    var n := NewSlot(e, name, cluster, size);
    assert n[20..22] == LE(cluster / 0x1_0000, 2);
    assert n[26..28] == LE(cluster, 2);
    assert n[28..32] == LE(size, 4);
    FieldsOf(n, cluster, size);
  }

  /** A slot whose fields were written reads them back. */
  lemma FieldsOf(e: Slot, cluster: nat, size: nat)
    requires cluster < 0x1_0000_0000 && size < 0x1_0000_0000
    requires e[20..22] == LE(cluster / 0x1_0000, 2) && e[26..28] == LE(cluster, 2) && e[28..32] == LE(size, 4)
    ensures FirstCluster(e, 0) == cluster && FileSize(e, 0) == size
  {
    ClusterHalves(cluster);
    LEMod(size, 4);
    ExpValues();
  }

  lemma NewSlotFits(e: Slot, name: Name, cluster: nat, size: nat, other: Name, wantDir: bool)
    ensures Fits(NewSlot(e, name, cluster, size), other, wantDir) <==> other == name && !wantDir && name[0] != 0xe5
  {
  }

  /** The empty slots of a cleared cluster. */
  function Blank(n: nat): (s: seq<Slot>)
    ensures |s| == n && forall i :: 0 <= i < n ==> s[i] == Zeros(32)
  {
    seq(n, i => Zeros(32))
  }

  /** A search passes over slots that are neither the end nor a match. */
  lemma {:induction false} SearchSkips(slots: seq<Slot>, i: nat, k: nat, name: Name, wantDir: bool)
    requires i <= k <= |slots| && forall j :: i <= j < k ==> slots[j][0] != 0 && !Fits(slots[j], name, wantDir)
    ensures Search(slots, i, name, wantDir) == Search(slots, k, name, wantDir)
    decreases k - i
  {
    if i < k {
      SearchSkips(slots, i + 1, k, name, wantDir);
    }
  }

  /** Searches that agree from slot `k` on agree from any earlier slot, if the slots between are the same. */
  lemma {:induction false} SearchAgrees(a: seq<Slot>, b: seq<Slot>, i: nat, k: nat, name: Name, wantDir: bool)
    requires i <= k <= |a| && k <= |b| && (forall j :: i <= j < k ==> a[j] == b[j])
    requires Search(a, k, name, wantDir) == Search(b, k, name, wantDir)
    ensures Search(a, i, name, wantDir) == Search(b, i, name, wantDir)
    decreases k - i
  {
    if i < k {
      SearchAgrees(a, b, i + 1, k, name, wantDir);
    }
  }

  /** A name not found fits no slot before the first free one. */
  lemma {:induction false} NotFoundBefore(slots: seq<Slot>, i: nat, k: nat, name: Name, wantDir: bool)
    requires i <= k <= |slots| && (forall j :: i <= j < k ==> !FreeSlot(slots[j])) && Search(slots, i, name, wantDir).None?
    ensures forall j :: i <= j < k ==> !Fits(slots[j], name, wantDir)
    decreases k - i
  {
    if i < k {
      NotFoundBefore(slots, i + 1, k, name, wantDir);
    }
  }

  /** Placing the entry of a name not there yet, in the first free slot of a directory whose end is clean: a first byte
      that is one of the two marks hides the name; otherwise it is found there, and every other name as before. */
  lemma EntryPlaced(slots: seq<Slot>, k: nat, e: Slot, name: Name, cluster: nat, size: nat)
    requires FirstFree(slots, Some(k)) && Tidy(slots) && e == NewSlot(slots[k], name, cluster, size)
    requires Search(slots, 0, name, false).None?
    ensures Search(slots[k := e], 0, name, false) == if name[0] != 0 && name[0] != 0xe5 then Some(k) else None
  {
    var now := slots[k := e];
    NotFoundBefore(slots, 0, k, name, false);
    NewSlotFits(slots[k], name, cluster, size, name, false);
    SearchSkips(now, 0, k, name, false);
    SearchSkips(slots, 0, k, name, false);
    if name[0] == 0xe5 {
      if slots[k][0] == 0 {
        Ended(now, k + 1, name, false);
      } else {
        SearchAgrees(slots, now, k + 1, |slots|, name, false);
      }
    }
  }

  lemma Ended(slots: seq<Slot>, i: nat, name: Name, wantDir: bool)
    requires i <= |slots| && (i < |slots| ==> slots[i][0] == 0)
    ensures Search(slots, i, name, wantDir) == None
  {
  }

  /** Every other name is found as before, except that a new entry that is an end mark hides those behind it. */
  lemma OthersFound(slots: seq<Slot>, k: nat, e: Slot, name: Name, cluster: nat, size: nat, other: Name, wantDir: bool)
    requires FirstFree(slots, Some(k)) && Tidy(slots) && e == NewSlot(slots[k], name, cluster, size)
    requires other != name || wantDir
    ensures Search(slots[k := e], 0, other, wantDir)
         == var at := Search(slots, 0, other, wantDir); if name[0] == 0 && at.Some? && at.value >= k then None else at
  {
    var now := slots[k := e];
    NewSlotFits(slots[k], name, cluster, size, other, wantDir);
    SearchFrom(slots, now, 0, k, other, wantDir);
    if name[0] == 0 {
      Ended(now, k, other, wantDir);
    } else if slots[k][0] == 0 {
      Ended(now, k + 1, other, wantDir);
    } else {
      SearchAgrees(slots, now, k + 1, |slots|, other, wantDir);
    }
  }

  /** A search that has not succeeded before `k` goes on there; what it finds before `k` depends on those slots only. */
  lemma {:induction false} SearchFrom(a: seq<Slot>, b: seq<Slot>, i: nat, k: nat, name: Name, wantDir: bool)
    requires i <= k <= |a| == |b| && forall j :: i <= j < k ==> a[j][0] != 0 && a[j] == b[j]
    ensures var x, y := Search(a, i, name, wantDir), Search(b, i, name, wantDir);
            (x == y && x.Some? && x.value < k) || (x == Search(a, k, name, wantDir) && y == Search(b, k, name, wantDir))
    decreases k - i
  {
    if i < k {
      SearchFrom(a, b, i + 1, k, name, wantDir);
    }
  }

  /** A full directory with blank slots added finds what it found. */
  lemma BlanksAdded(slots: seq<Slot>, n: nat, name: Name, wantDir: bool)
    requires FirstFree(slots, None) && n > 0
    ensures FirstFree(slots + Blank(n), Some(|slots|)) && Tidy(slots + Blank(n))
    ensures Search(slots + Blank(n), 0, name, wantDir) == Search(slots, 0, name, wantDir)
  {
    Ended(slots + Blank(n), |slots|, name, wantDir);
    SearchAgrees(slots, slots + Blank(n), 0, |slots|, name, wantDir);
  }
}
