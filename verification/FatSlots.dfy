/**
 A directory as the sequence of its 32-byte slots: what a search finds, and what a new entry changes
 (xtask/src/fat32_write.rs).
 */
module FatSlots {
  import opened Base
  import opened DirSlots
  import opened FatVolume

  function SlotBytes(img: Bytes, secs: seq<nat>, i: nat): Slot
    requires i < SLOTS * |secs| && SlotOff(secs, i) + SLOT <= |img|
  {
    img[SlotOff(secs, i)..SlotOff(secs, i) + SLOT]
  }

  ghost function Slots(img: Bytes, secs: seq<nat>): (s: seq<Slot>)
    requires SectorsInside(img, secs)
    ensures |s| == SLOTS * |secs|
    ensures forall i :: 0 <= i < |s| ==> SlotOff(secs, i) + SLOT <= |img| && s[i] == SlotBytes(img, secs, i)
  {
    forall i: nat | i < SLOTS * |secs|
      ensures SlotOff(secs, i) + SLOT <= |img|
    {
      SlotInside(img, secs, i);
    }
    seq(SLOTS * |secs|, (i: nat) requires i < SLOTS * |secs| && SlotOff(secs, i) + SLOT <= |img| => SlotBytes(img, secs, i))
  }

  lemma {:induction false} ScanIsSearch(img: Bytes, secs: seq<nat>, i: nat, name: Name, wantDir: bool)
    requires SectorsInside(img, secs) && i <= SLOTS * |secs|
    ensures Scan(img, secs, i, name, wantDir) == Search(Slots(img, secs), i, name, wantDir)
    decreases SLOTS * |secs| - i
  {
    if i < SLOTS * |secs| {
      SlotInside(img, secs, i);
      FitsIsMatches(img, SlotOff(secs, i), name, wantDir);
      ScanIsSearch(img, secs, i + 1, name, wantDir);
    }
  }

  lemma FitsIsMatches(img: Bytes, s: nat, name: Name, wantDir: bool)
    requires s + SLOT <= |img|
    ensures img[s..s + SLOT][0] == img[s]
    ensures Fits(img[s..s + SLOT], name, wantDir) == Matches(img, s, name, wantDir)
  {
    assert img[s..s + SLOT][..11] == img[s..s + 11];
    assert img[s..s + SLOT][11] == img[s + 11];
  }

  function EntryOf(slots: seq<Slot>, i: nat): Found
    requires i < |slots|
  {
    Found(i, FirstCluster(slots[i], 0), FileSize(slots[i], 0))
  }

  /** Looking a name up depends only on the slots. */
  lemma LookupIsSearch(img: Bytes, secs: seq<nat>, name: Name, wantDir: bool)
    requires SectorsInside(img, secs)
    ensures var at := Search(Slots(img, secs), 0, name, wantDir);
            Lookup(img, secs, name, wantDir) == if at.None? then None else Some(EntryOf(Slots(img, secs), at.value))
  {
    ScanIsSearch(img, secs, 0, name, wantDir);
    var at := Scan(img, secs, 0, name, wantDir);
    if at.Some? {
      SlotInside(img, secs, at.value);
      FieldsInSlot(img, SlotOff(secs, at.value), img[SlotOff(secs, at.value)..SlotOff(secs, at.value) + SLOT]);
    }
  }

  lemma FieldsInSlot(img: Bytes, s: nat, e: Bytes)
    requires s + SLOT <= |img| && e == img[s..s + SLOT]
    ensures FirstCluster(e, 0) == FirstCluster(img, s) && FileSize(e, 0) == FileSize(img, s)
  {
    assert e[20..22] == img[s + 20..s + 22];
    assert e[26..28] == img[s + 26..s + 28];
    assert e[28..32] == img[s + 28..s + 32];
  }
}
