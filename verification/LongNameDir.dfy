/**
 Entries with long names in a directory on disk (install_entry_in_dir and list_dir_entries of
 xtask/src/fat32_write.rs).
 */
module LongNameDir {
  import opened Base
  import opened DirSlots
  import opened Disk
  import opened FatVolume
  import opened FatFiles
  import opened FatFrame
  import opened FatSlots
  import opened FatListing
  import opened LongNames
  import opened Utf16

  // ---------------------------------------------------------------- listing

  /** The parts end with an end mark or with the last unit; the pending parts are used up. */
  method TakeLfn(pending: seq<Part>, name: Name) returns (r: Option<Long>)
    ensures r == Take(pending, name)
  {
    var chk := LfnChecksum(name);
    if pending == [] {
      return None;
    }
    for i := 0 to |pending|
      invariant forall j :: 0 <= j < i ==> pending[j].chk == chk
    {
      if pending[i].chk != chk {
        return None;
      }
    }
    var parts := Sorted(pending);
    var units: Long := [];
    assert parts[0..] == parts;
    for i := 0 to |parts|
      invariant Clean(AllUnits(parts)) == units + Clean(AllUnits(parts[i..]))
    {
      var over;
      ghost var rest := AllUnits(parts[i + 1..]);
      assert AllUnits(parts[i..]) == parts[i].units + rest;
      over, units := KeepUnits(units, parts[i].units, rest);
      if over {
        return Some(Lossy(units));
      }
    }
    assert parts[|parts|..] == [] && units + [] == units;
    r := Some(Lossy(units));
  }

  /** The units of one part: up to an end mark, without padding. */
  method KeepUnits(kept: Long, c: Long, ghost rest: Long) returns (over: bool, units: Long)
    ensures kept + Clean(c + rest) == if over then units else units + Clean(rest)
  {
    units := kept;
    assert c[0..] + rest == c + rest;
    for j := 0 to |c|
      invariant kept + Clean(c + rest) == units + Clean(c[j..] + rest)
    {
      assert (c[j..] + rest)[0] == c[j] && (c[j..] + rest)[1..] == c[j + 1..] + rest;
      if c[j] == 0 {
        return true, units;
      }
      if c[j] != 0xffff {
        units := units + [c[j]];
      }
    }
    assert c[|c|..] + rest == rest;
    over := false;
  }

  method ListDirEntries(disk: Image, vol: Vol, d: Dir) returns (out: seq<DirEnt>)
    requires DirHeld(disk.img, vol, d)
    ensures out == List(Slots(disk.img, SectorsIn(disk.img, vol, d)), 0, [])
  {
    var secs := ListDir(disk, vol, d);
    var slots := ReadSlots(disk, secs);
    out := ListSlots(slots);
  }

  method ListSlots(slots: seq<Slot>) returns (out: seq<DirEnt>)
    ensures out == List(slots, 0, [])
  {
    out := [];
    var pending: seq<Part> := [];
    for i := 0 to |slots|
      invariant List(slots, 0, []) == out + List(slots, i, pending)
    {
      var e := slots[i];
      EntryStep(slots, i, pending, e);
      SlotAdds(e, pending);
      if e[0] == 0 {
        return;
      }
      ghost var was := out;
      if e[0] == 0xe5 {
        pending := [];
      } else if e[11] == 0x0f {
        pending := pending + [PartOf(e)];
      } else if Labelled(e[11]) || IsDot(e[..11]) {
        pending := [];
      } else {
        var lfn := TakeLfn(pending, e[..11]);
        out := out + [DirEnt(e[..11], IsDir(e[11]), lfn)];
        pending := [];
      }
      Regroup(was, out, List(slots, i + 1, pending));
    }
  }

  /** Nothing or one entry moved from the front of what is to come to the end of what was listed. */
  lemma Regroup(was: seq<DirEnt>, out: seq<DirEnt>, rest: seq<DirEnt>)
    requires |was| <= |out| && out[..|was|] == was
    ensures was + (out[|was|..] + rest) == out + rest
  {
  }

  /** All sectors, in memory, as slots. */
  method ReadSlots(disk: Image, secs: seq<nat>) returns (slots: seq<Slot>)
    requires SectorsInside(disk.img, secs)
    ensures slots == Slots(disk.img, secs)
  {
    slots := [];
    for j := 0 to |secs|
      invariant slots == Slots(disk.img, secs)[..SLOTS * j]
    {
      var sec := disk.ReadAt(secs[j], secs[j] + SECTOR);
      for i := 0 to SLOTS
        invariant slots == Slots(disk.img, secs)[..SLOTS * j + i]
      {
        NextSlot(disk.img, secs, j, i, sec);
        slots := slots + [sec[i * SLOT..i * SLOT + SLOT]];
      }
    }
  }

  lemma NextSlot(img: Bytes, secs: seq<nat>, j: nat, i: nat, sec: Bytes)
    requires SectorsInside(img, secs) && j < |secs| && i < SLOTS && sec == img[secs[j]..secs[j] + SECTOR]
    ensures SLOTS * j + i < SLOTS * |secs| && |sec[i * SLOT..i * SLOT + SLOT]| == SLOT
    ensures Slots(img, secs)[..SLOTS * j + i] + [sec[i * SLOT..i * SLOT + SLOT]] == Slots(img, secs)[..SLOTS * j + i + 1]
  {
    SlotAt(secs, j, i);
    SlotInside(img, secs, SLOTS * j + i);
    SliceOfSlice(img, secs[j], secs[j] + SECTOR, i * SLOT, i * SLOT + SLOT);
  }

  // ---------------------------------------------------------------- installing

  ghost predicate NoRoom(slots: seq<Slot>, need: nat) {
    forall s: nat :: !Room(slots, s, need)
  }

  /** The first place for `need` entries in a row. */
  method FindRoom(slots: seq<Slot>, need: nat) returns (r: Option<nat>)
    requires need > 0
    ensures r.Some? ==> FirstRoom(slots, r.value, need)
    ensures r.None? ==> NoRoom(slots, need)
  {
    var start := 0;
    while start + need <= |slots|
      invariant forall s: nat :: s < start ==> !Room(slots, s, need)
    {
      var k := 0;
      while k < need && FreeSlot(slots[start + k])
        invariant k <= need && forall j :: start <= j < start + k ==> FreeSlot(slots[j])
      {
        k := k + 1;
      }
      if k == need {
        return Some(start);
      }
      assert !FreeSlot(slots[start + k]);
      start := start + 1;
    }
    r := None;
  }

  function SectorBytes(slots: seq<Slot>, j: nat): (b: Bytes)
    requires SLOTS * (j + 1) <= |slots|
    ensures |b| == SECTOR
  {
    seq(SECTOR, (x: nat) requires x < SECTOR => slots[SLOTS * j + x / SLOT][x % SLOT])
  }

  lemma SlotInSector(slots: seq<Slot>, j: nat, i: nat)
    requires SLOTS * (j + 1) <= |slots| && i < SLOTS
    ensures SectorBytes(slots, j)[i * SLOT..i * SLOT + SLOT] == slots[SLOTS * j + i]
  {
  }

  /** The slots on disk once the sectors `lo`..`hi` have been written. */
  function Mixed(was: seq<Slot>, now: seq<Slot>, lo: nat, hi: nat): (m: seq<Slot>)
    requires |was| == |now|
    ensures |m| == |was|
    ensures forall i :: 0 <= i < |m| ==> m[i] == if lo <= i / SLOTS < hi then now[i] else was[i]
  {
    seq(|was|, (i: nat) requires i < |was| => if lo <= i / SLOTS < hi then now[i] else was[i])
  }

  /** Bytes outside the sectors of the directory are as before. */
  ghost predicate OnlyDir(was: Bytes, now: Bytes, secs: seq<nat>) {
    && |now| == |was|
    && forall p :: 0 <= p < |was| && (forall j :: 0 <= j < |secs| ==> !(secs[j] <= p < secs[j] + SECTOR)) ==> now[p] == was[p]
  }

  lemma SectorWritten(img: Bytes, secs: seq<nat>, j: nat, was: seq<Slot>, next: seq<Slot>, lo: nat)
    requires SectorsInside(img, secs) && Distinct(secs) && Aligned(secs) && lo <= j < |secs|
    requires |was| == |next| == SLOTS * |secs| && Slots(img, secs) == Mixed(was, next, lo, j)
    ensures var now := Splice(img, secs[j], SectorBytes(next, j));
            SectorsInside(now, secs) && Slots(now, secs) == Mixed(was, next, lo, j + 1)
  {
    forall i | 0 <= i < SLOTS * |secs|
      ensures Slots(Splice(img, secs[j], SectorBytes(next, j)), secs)[i] == Mixed(was, next, lo, j + 1)[i]
    {
      SlotWritten(img, secs, j, next, SectorBytes(next, j), i);
    }
  }

  lemma SlotWritten(img: Bytes, secs: seq<nat>, j: nat, next: seq<Slot>, b: Bytes, i: nat)
    requires SectorsInside(img, secs) && Distinct(secs) && Aligned(secs) && j < |secs| && |next| == SLOTS * |secs|
    requires b == SectorBytes(next, j) && i < SLOTS * |secs|
    ensures Slots(Splice(img, secs[j], b), secs)[i] == if i / SLOTS == j then next[i] else Slots(img, secs)[i]
  {
    SlotInside(img, secs, i);
    var s := SlotOff(secs, i);
    if i / SLOTS == j {
      SlotInSector(next, j, i % SLOTS);
      SpliceInside(img, secs[j], b, s, s + SLOT);
    } else {
      SectorsApart(secs[i / SLOTS], secs[j]);
      assert secs[i / SLOTS] != secs[j];
      SpliceApart(img, secs[j], b, s, s + SLOT);
    }
  }

  lemma StaysInDir(was: Bytes, img: Bytes, secs: seq<nat>, j: nat, b: Bytes)
    requires OnlyDir(was, img, secs) && j < |secs| && secs[j] + SECTOR <= |img| && |b| == SECTOR
    ensures OnlyDir(was, Splice(img, secs[j], b), secs)
  {
    var now := Splice(img, secs[j], b);
    forall p | 0 <= p < |was| && (forall j :: 0 <= j < |secs| ==> !(secs[j] <= p < secs[j] + SECTOR))
      ensures now[p] == was[p]
    {
      SpliceIndex(img, secs[j], b, p);
    }
  }

  /** Writes back the sectors the changed slots lie in. */
  method WriteBack(disk: Image, secs: seq<nat>, slots: seq<Slot>, start: nat, need: nat)
    requires SectorsInside(disk.img, secs) && Distinct(secs) && Aligned(secs) && |slots| == SLOTS * |secs|
    requires need > 0 && start + need <= |slots|
    requires forall i :: 0 <= i < |slots| && !(start <= i < start + need) ==> slots[i] == Slots(disk.img, secs)[i]
    modifies disk
    ensures SectorsInside(disk.img, secs) && Slots(disk.img, secs) == slots && OnlyDir(old(disk.img), disk.img, secs)
  {
    ghost var was, before := disk.img, Slots(disk.img, secs);
    var lo, hi := start / SLOTS, (start + need - 1) / SLOTS + 1;
    assert Mixed(before, slots, lo, lo) == before;
    for j := lo to hi
      invariant SectorsInside(disk.img, secs) && Slots(disk.img, secs) == Mixed(before, slots, lo, j)
      invariant OnlyDir(was, disk.img, secs)
    {
      SectorWritten(disk.img, secs, j, before, slots, lo);
      StaysInDir(was, disk.img, secs, j, SectorBytes(slots, j));
      disk.WriteAt(secs[j], SectorBytes(slots, j));
    }
    forall i | 0 <= i < |slots|
      ensures Mixed(before, slots, lo, hi)[i] == slots[i]
    {
    }
  }

  /** What an installation does to the slots: the first room, or nothing when there is none. */
  ghost predicate Installed(was: seq<Slot>, now: seq<Slot>, name: Name, cluster: nat, size: nat, attr: byte, lfn: Option<Long>,
                            start: nat, ents: seq<Slot>)
    requires lfn.Some? ==> |lfn.value| <= UNITS * NUMBERED
  {
    && (if lfn.Some? then IsEncoding(ents, lfn.value, SumOf(name)) else ents == [])
    && FirstRoom(was, start, |ents| + 1)
    && now == Placed(was, start, ents, EntrySlot(name, attr, cluster, size))
  }

  method InstallEntryInDir(disk: Image, secs: seq<nat>, name: Name, cluster: nat, size: nat, attr: byte, lfn: Option<Long>)
    returns (ok: bool, ghost start: nat, ghost ents: seq<Slot>)
    requires SectorsInside(disk.img, secs) && Distinct(secs) && Aligned(secs)
    requires lfn.Some? ==> |lfn.value| <= UNITS * NUMBERED
    modifies disk
    ensures SectorsInside(disk.img, secs) && OnlyDir(old(disk.img), disk.img, secs)
    ensures ok ==> Installed(Slots(old(disk.img), secs), Slots(disk.img, secs), name, cluster, size, attr, lfn, start, ents)
    ensures !ok ==> disk.img == old(disk.img) && NoRoom(Slots(disk.img, secs), |ents| + 1)
    ensures if lfn.Some? then IsEncoding(ents, lfn.value, SumOf(name)) else ents == []
  {
    var parts := [];
    if lfn.Some? {
      parts := EncodeLfn(lfn.value, name);
    }
    ents := parts;
    start := 0;
    var slots := ReadSlots(disk, secs);
    var at := FindRoom(slots, |parts| + 1);
    if at.None? {
      return false, 0, parts;
    }
    start := at.value;
    var placed := Placed(slots, at.value, parts, EntrySlot(name, attr, cluster, size));
    PlacedParts(slots, at.value, parts, EntrySlot(name, attr, cluster, size));
    PlacedOutside(slots, at.value, parts, EntrySlot(name, attr, cluster, size));
    WriteBack(disk, secs, placed, at.value, |parts| + 1);
    ok := true;
  }

  lemma PlacedOutside(slots: seq<Slot>, start: nat, ents: seq<Slot>, e: Slot)
    requires start + |ents| < |slots|
    ensures forall i :: 0 <= i < |slots| && !(start <= i < start + |ents| + 1) ==> Placed(slots, start, ents, e)[i] == slots[i]
  {
  }

  /** The directory is listed from the same sectors afterwards. */
  lemma ListedAgain(was: Bytes, now: Bytes, vol: Vol, d: Dir, secs: seq<nat>)
    requires DirHeld(was, vol, d) && secs == SectorsIn(was, vol, d) && OnlyDir(was, now, secs)
    ensures DirHeld(now, vol, d) && SectorsIn(now, vol, d) == secs
  {
    HoldsTable(was, vol);
    forall j | 0 <= j < |secs|
      ensures FatEnd(vol) <= secs[j]
    {
      SectorsHome(vol, Fat(was, vol), d, j);
      HomeInside(was, vol, ClustersOf(vol, Fat(was, vol), d), secs[j]);
    }
    assert now[FatOff(vol)..FatEnd(vol)] == was[FatOff(vol)..FatEnd(vol)];
    TablesKept(was, now, vol);
  }

  /** The long name round trip on disk: what a call that succeeds wrote is what the next listing shows. */
  lemma InstalledIsListed(was: seq<Slot>, now: seq<Slot>, name: Name, cluster: nat, size: nat, attr: byte, lfn: Option<Long>,
                          start: nat, ents: seq<Slot>, before: seq<DirEnt>, after: seq<DirEnt>)
    requires lfn.Some? ==> |lfn.value| <= UNITS * MAX_PARTS && Plain(lfn.value) && Paired(lfn.value)
    requires Installed(was, now, name, cluster, size, attr, lfn, start, ents) && WellFormed(was) && Shown(name, attr)
    requires before == List(was[..start], 0, []) && after == List(was, start, [])
    ensures List(was, 0, []) == before + after && WellFormed(now)
    ensures List(now, 0, []) == before + [DirEnt(name, IsDir(attr), lfn)] + after
  {
    if lfn.Some? {
      LongNameListed(was, now, start, ents, lfn.value, name, attr, cluster, size, before, after);
    } else {
      ListsEntry(was, now, start, ents, name, attr, cluster, size, before, DirEnt(name, IsDir(attr), None), after);
      StaysWellFormed(was, now, start, ents, name, attr, cluster, size);
    }
  }
}
