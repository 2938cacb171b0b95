/**
 Long file names of xtask/src/fat32_write.rs: the slots encode_lfn writes before an entry, and what a
 listing makes of them (Microsoft FAT32 File System Specification 1.03, section "FAT Long Directory
 Entries"). A name is its UTF-16 units.
 */
module LongNames {
  import opened Base
  import opened Words
  import opened Utf16
  import opened DirSlots

  type Long = seq<Word>

  /** Units of a name in one slot. */
  const UNITS: nat := 13

  /** More parts cannot be numbered: a listing keeps five bits of the number. */
  const MAX_PARTS: nat := 31

  /** More parts cannot be written: a build with overflow checks stops at the number of the next. */
  const NUMBERED: nat := 255

  // ---------------------------------------------------------------- the checksum of the short name

  function SumStep(sum: byte, b: byte): byte {
    (sum % 2 * 128 + sum / 2 + b) % 256
  }

  function SumOf(name: Bytes): byte {
    if name == [] then 0 else SumStep(SumOf(name[..|name| - 1]), name[|name| - 1])
  }

  method LfnChecksum(name: Name) returns (sum: byte)
    ensures sum == SumOf(name)
  {
    sum := 0;
    for i := 0 to |name|
      invariant sum == SumOf(name[..i])
    {
      assert name[..i + 1][..i] == name[..i];
      sum := SumStep(sum, name[i]);
    }
    assert name[..|name|] == name;
  }

  /** From zero on, the sum so far is rotated right by one bit before a byte is added. */
  lemma SumRotates(name: Bytes, sum: bv8, b: byte)
    requires SumOf(name) == sum as int
    ensures SumOf([]) == 0 && SumOf(name + [b]) == (sum.RotateRight(1) as int + b) % 256
  {
    LastBitFirst(sum);
    assert (name + [b])[..|name|] == name;
  }

  lemma LastBitFirst(sum: bv8)
    ensures sum.RotateRight(1) as int == sum as int % 2 * 128 + sum as int / 2
  {
  }

  // ---------------------------------------------------------------- one slot of a long name

  /** Where unit `j` of a slot is. */
  function UnitOff(j: nat): (o: nat)
    requires j < UNITS
    ensures 1 <= o <= 30
  {
    if j < 5 then 1 + 2 * j else if j < 11 then 4 + 2 * j else 6 + 2 * j
  }

  function UnitAt(e: Slot, j: nat): Word
    requires j < UNITS
  {
    (e[UnitOff(j)] as int) + 256 * (e[UnitOff(j) + 1] as int)
  }

  function LfnUnits(e: Slot): (c: Long)
    ensures |c| == UNITS && forall j :: 0 <= j < UNITS ==> c[j] == UnitAt(e, j)
  {
    seq(UNITS, (j: nat) requires j < UNITS => UnitAt(e, j))
  }

  /** The first byte of part `num`; the part with the end of the name is marked. */
  function NumByte(num: byte, last: bool): byte {
    if last && num / 64 % 2 == 0 then num + 64 else num
  }

  /** The slot of part `num` of a long name: every byte of it is fixed. */
  predicate IsPart(e: Slot, num: byte, last: bool, chk: byte, c: Long)
    requires |c| == UNITS
  {
    && e[0] == NumByte(num, last) && e[11] == 0x0f && e[12] == 0 && e[13] == chk && e[26] == 0 && e[27] == 0
    && LfnUnits(e) == c
  }

  method EncodePart(num: byte, last: bool, chk: byte, c: Long) returns (e: Slot)
    requires |c| == UNITS
    ensures IsPart(e, num, last, chk, c)
  {
    e := Zeros(32);
    e := e[0 := NumByte(num, last)][11 := 0x0f][13 := chk];
    for k := 0 to UNITS
      invariant |e| == 32 && e[0] == NumByte(num, last) && e[11] == 0x0f && e[12] == 0 && e[13] == chk && e[26] == 0 && e[27] == 0
      invariant forall j :: 0 <= j < k ==> UnitAt(e, j) == c[j]
    {
      e := PutUnit(e, k, c[k]);
    }
  }

  method PutUnit(e: Slot, k: nat, u: Word) returns (r: Slot)
    requires k < UNITS
    ensures forall j :: 0 <= j < UNITS ==> UnitAt(r, j) == if j == k then u else UnitAt(e, j)
    ensures r[0] == e[0] && r[11] == e[11] && r[12] == e[12] && r[13] == e[13] && r[26] == e[26] && r[27] == e[27]
  {
    r := e[UnitOff(k) := u % 256][UnitOff(k) + 1 := u / 256];
  }

  // ---------------------------------------------------------------- all parts

  /** The units filled up to whole slots: an end mark and padding, unless they fill their slots exactly. */
  function Padded(name: Long): (p: Long)
    ensures |p| % UNITS == 0 && |p| > 0
    ensures |p| < |name| + UNITS + 1
    ensures |name| <= UNITS * MAX_PARTS ==> |p| <= UNITS * MAX_PARTS
    ensures |name| <= UNITS * NUMBERED ==> |p| <= UNITS * NUMBERED
  {
    if name == [] then [0] + seq(12, i => 0xffff)
    else if |name| % UNITS == 0 then name
    else name + [0] + seq(UNITS - 1 - |name| % UNITS, i => 0xffff)
  }

  /** The units of a name fill whole parts: an end mark behind them, then padding, unless they fill their parts exactly. */
  lemma PaddedWith(name: Long)
    ensures var p := Padded(name);
            && |p| % 13 == 0 && |name| <= |p| && p[..|name|] == name && 0 < |p|
            && (|name| > 0 ==> |p| < |name| + 13) && (|name| == 0 ==> |p| == 13)
            && (|p| > |name| ==> p[|name|] == 0 && forall i :: |name| < i < |p| ==> p[i] == 0xffff)
  {
  }

  function Chunk(p: Long, i: nat): (c: Long)
    requires UNITS * (i + 1) <= |p|
    ensures |c| == UNITS
  {
    p[UNITS * i..UNITS * i + UNITS]
  }

  /** The parts in the order they are written: the last one first. */
  predicate IsEncoding(ents: seq<Slot>, name: Long, chk: byte)
    requires |name| <= UNITS * NUMBERED
  {
    && UNITS * |ents| == |Padded(name)|
    && forall i :: 0 <= i < |ents| ==> IsPart(ents[|ents| - 1 - i], i + 1, i + 1 == |ents|, chk, Chunk(Padded(name), i))
  }

  method PadUnits(name: Long) returns (units: Long)
    ensures units == Padded(name)
  {
    units := name;
    if |units| % UNITS != 0 {
      units := units + [0];
      ghost var pad := 0;
      ghost var want := UNITS - 1 - |name| % UNITS;
      while |units| % UNITS != 0
        invariant pad <= want && units == name + [0] + seq(pad, i => 0xffff)
        decreases UNITS - pad
      {
        PadStep(name, pad);
        units := units + [0xffff];
        pad := pad + 1;
      }
      PadEnd(|name|, pad);
    }
    if units == [] {
      units := [0] + seq(12, i => 0xffff);
    }
  }

  lemma PadStep(name: Long, pad: nat)
    requires |name| % UNITS != 0 && pad <= UNITS - 1 - |name| % UNITS && (|name| + 1 + pad) % UNITS != 0
    ensures pad + 1 <= UNITS - 1 - |name| % UNITS
    ensures name + [0] + seq<Word>(pad, i => 0xffff) + [0xffff] == name + [0] + seq<Word>(pad + 1, i => 0xffff)
  {
  }

  lemma PadEnd(n: nat, pad: nat)
    requires n % UNITS != 0 && pad <= UNITS - 1 - n % UNITS && (n + 1 + pad) % UNITS == 0
    ensures pad == UNITS - 1 - n % UNITS
  {
  }

  method EncodeLfn(name: Long, short: Name) returns (ents: seq<Slot>)
    requires |name| <= UNITS * NUMBERED
    ensures IsEncoding(ents, name, SumOf(short))
  {
    var units := PadUnits(name);
    var nents := |units| / UNITS;
    var chk := LfnChecksum(short);
    ents := [];
    var i := nents;
    while i > 0
      invariant 0 <= i <= nents && |ents| == nents - i
      invariant forall j :: i <= j < nents ==> IsPart(ents[nents - 1 - j], j + 1, j + 1 == nents, chk, Chunk(units, j))
    {
      i := i - 1;
      var e := EncodePart(i + 1, i + 1 == nents, chk, Chunk(units, i));
      ents := ents + [e];
    }
  }

  // ---------------------------------------------------------------- listing

  /** A part read while waiting for its entry: number, checksum, units. */
  datatype Part = Part(num: byte, chk: byte, units: Long)

  datatype DirEnt = DirEnt(name: Name, isDir: bool, lfn: Option<Long>)

  function Clean(units: Long): (c: Long)
  {
    if units == [] || units[0] == 0 then []
    else if units[0] == 0xffff then Clean(units[1..])
    else [units[0]] + Clean(units[1..])
  }

  /** Cutting a text at an end mark and dropping padding units leaves a text. */
  lemma {:induction false} CleanPaired(u: Long)
    requires Paired(u)
    ensures Paired(Clean(u))
  {
    if u != [] && u[0] != 0 {
      if HighSurrogate(u[0]) {
        assert u[1..][0] == u[1] && u[1..][1..] == u[2..];
        CleanPaired(u[2..]);
        assert Clean(u) == [u[0]] + ([u[1]] + Clean(u[2..]));
        assert Clean(u)[2..] == Clean(u[2..]);
      } else {
        CleanPaired(u[1..]);
        assert u[0] != 0xffff ==> Clean(u)[1..] == Clean(u[1..]);
      }
    }
  }

  /** The stable order by number. */
  function Insert(p: Part, s: seq<Part>): (r: seq<Part>)
    ensures |r| == |s| + 1
  {
    if s == [] || p.num < s[0].num then [p] + s else [s[0]] + Insert(p, s[1..])
  }

  function Sorted(s: seq<Part>): (r: seq<Part>)
    ensures |r| == |s|
  {
    if s == [] then [] else Insert(s[|s| - 1], Sorted(s[..|s| - 1]))
  }

  function AllUnits(s: seq<Part>): Long {
    if s == [] then [] else s[0].units + AllUnits(s[1..])
  }

  /** The long name the pending parts give an entry. */
  function Take(pending: seq<Part>, name: Name): Option<Long> {
    if pending == [] || exists i :: 0 <= i < |pending| && pending[i].chk != SumOf(name) then None
    else Some(Lossy(Clean(AllUnits(Sorted(pending)))))
  }

  lemma {:induction false} InsertCounts(p: Part, s: seq<Part>)
    ensures multiset(Insert(p, s)) == multiset(s) + multiset{p}
  {
    if s != [] && p.num >= s[0].num {
      InsertCounts(p, s[1..]);
      assert s == [s[0]] + s[1..];
    }
  }

  lemma {:induction false} InsertSorts(p: Part, s: seq<Part>)
    requires InOrder(s)
    ensures InOrder(Insert(p, s))
    ensures forall x :: x in Insert(p, s) ==> x == p || x in s
  {
    if s != [] {
      if p.num < s[0].num {
        HeadInOrder(p, s);
      } else {
        InOrderTail(s);
        InsertSorts(p, s[1..]);
        HeadInOrder(s[0], Insert(p, s[1..]));
      }
    }
  }

  predicate InOrder(s: seq<Part>) {
    forall i, j :: 0 <= i < j < |s| ==> s[i].num <= s[j].num
  }

  lemma InOrderTail(s: seq<Part>)
    requires InOrder(s) && s != []
    ensures InOrder(s[1..]) && forall x :: x in s[1..] ==> s[0].num <= x.num
  {
  }

  lemma HeadInOrder(p: Part, r: seq<Part>)
    requires InOrder(r) && forall x :: x in r ==> p.num <= x.num
    ensures InOrder([p] + r)
  {
  }

  /** The parts are put in the order of their numbers. */
  lemma {:induction false} SortedIs(s: seq<Part>)
    ensures InOrder(Sorted(s)) && multiset(Sorted(s)) == multiset(s)
  {
    if s != [] {
      var front, p := s[..|s| - 1], s[|s| - 1];
      assert s == front + [p];
      SortedIs(front);
      InsertSorts(p, Sorted(front));
      InsertCounts(p, Sorted(front));
    }
  }

  /** A long name is taken exactly when there are parts and all carry the sum of the short name. */
  lemma TakenIff(pending: seq<Part>, name: Name)
    ensures Take(pending, name).Some? <==> pending != [] && forall i :: 0 <= i < |pending| ==> pending[i].chk == SumOf(name)
  {
  }

  /** Of the units, those before the first end mark count, without padding. */
  lemma {:induction false} CleanJoins(a: Long, b: Long)
    requires 0 !in a
    ensures Clean(a + b) == Clean(a) + Clean(b)
    ensures Clean([0] + b) == [] && Clean([0xffff] + b) == Clean(b)
  {
    assert ([0xffff] + b)[1..] == b;
    if a == [] {
      assert a + b == b;
    } else {
      assert (a + b)[0] == a[0] && (a + b)[1..] == a[1..] + b;
      CleanJoins(a[1..], b);
    }
  }

  const DOT8: Bytes := [0x2e, 0x20, 0x20, 0x20, 0x20, 0x20, 0x20, 0x20]
  const DOTDOT8: Bytes := [0x2e, 0x2e, 0x20, 0x20, 0x20, 0x20, 0x20, 0x20]

  /** The names of a directory itself and of its parent. */
  predicate IsDot(name: Name) {
    name[..8] == DOT8 || name[..8] == DOTDOT8
  }

  function PartOf(e: Slot): Part {
    Part(e[0] % 32, e[13], LfnUnits(e))
  }

  /** The entry in a slot, with the long name the pending parts give it. */
  function EntryFrom(e: Slot, pending: seq<Part>): DirEnt {
    DirEnt(e[..11], IsDir(e[11]), Take(pending, e[..11]))
  }

  /** A slot with a part of a long name. */
  predicate PartSlot(e: Slot) {
    e[0] != 0 && e[0] != 0xe5 && e[11] == 0x0f
  }

  /** A slot with an entry that a listing shows. */
  predicate ShownSlot(e: Slot) {
    e[0] != 0 && e[0] != 0xe5 && e[11] != 0x0f && !Labelled(e[11]) && !IsDot(e[..11])
  }

  /** What a slot adds to a listing, and the parts pending after it: another part adds itself, any other slot uses them up
      or drops them. */
  function SlotEffect(e: Slot, pending: seq<Part>): (seq<DirEnt>, seq<Part>) {
    (if ShownSlot(e) then [EntryFrom(e, pending)] else [], if PartSlot(e) then pending + [PartOf(e)] else [])
  }

  function EffectFolded(e: Slot, pending: seq<Part>, k: nat): (seq<DirEnt>, seq<Part>) {
    if k == 0 then SlotEffect(e, pending) else EffectFolded(e, pending, k - 1)
  }

  lemma {:induction false} EffectIs(e: Slot, pending: seq<Part>, k: nat)
    ensures EffectFolded(e, pending, k) == SlotEffect(e, pending)
    decreases k
  {
    if k > 0 {
      EffectIs(e, pending, k - 1);
    }
  }

  /** The same, folded: see `SlotAdds`. */
  ghost function StillPending(e: Slot, pending: seq<Part>): seq<Part> {
    EffectFolded(e, pending, FOLDS).1
  }

  ghost function Adds(e: Slot, pending: seq<Part>): seq<DirEnt> {
    EffectFolded(e, pending, FOLDS).0
  }

  lemma SlotAdds(e: Slot, pending: seq<Part>)
    ensures StillPending(e, pending) == if PartSlot(e) then pending + [PartOf(e)] else []
    ensures Adds(e, pending) == if ShownSlot(e) then [EntryFrom(e, pending)] else []
  {
    EffectIs(e, pending, FOLDS);
  }

  /** The entries from slot `i` on, when `pending` parts have been read. */
  ghost function List(slots: seq<Slot>, i: nat, pending: seq<Part>): seq<DirEnt>
    requires i <= |slots|
    decreases |slots| - i
  {
    if i == |slots| || slots[i][0] == 0 then []
    else Adds(slots[i], pending) + List(slots, i + 1, StillPending(slots[i], pending))
  }

  lemma EntryStep(slots: seq<Slot>, i: nat, pending: seq<Part>, e: Slot)
    requires i < |slots| && e == slots[i]
    ensures List(slots, i, pending) ==
            if e[0] == 0 then [] else Adds(e, pending) + List(slots, i + 1, StillPending(e, pending))
  {
  }

  /** The pending parts when slot `i` is reached. */
  ghost function Waiting(slots: seq<Slot>, i: nat): seq<Part>
    requires i <= |slots|
  {
    if i == 0 then [] else StillPending(slots[i - 1], Waiting(slots, i - 1))
  }

  // ---------------------------------------------------------------- parts back in order

  function Reversed(s: seq<Part>): (r: seq<Part>)
    ensures |r| == |s| && forall i :: 0 <= i < |s| ==> r[i] == s[|s| - 1 - i]
  {
    seq(|s|, (i: nat) requires i < |s| => s[|s| - 1 - i])
  }

  /** Parts read from the last to the first are sorted by turning them round. */
  lemma {:induction false} SortedReverses(s: seq<Part>)
    requires forall i, j :: 0 <= i < j < |s| ==> s[i].num > s[j].num
    ensures Sorted(s) == Reversed(s)
  {
    if s != [] {
      var front := s[..|s| - 1];
      SortedReverses(front);
      ReversedFirst(s, front);
    }
  }

  lemma ReversedFirst(s: seq<Part>, front: seq<Part>)
    requires s != [] && front == s[..|s| - 1] && forall i :: 0 <= i < |front| ==> front[i].num > s[|s| - 1].num
    ensures Reversed(s) == [s[|s| - 1]] + Reversed(front) == Insert(s[|s| - 1], Reversed(front))
  {
  }

  lemma {:induction false} AllChunks(s: seq<Part>, p: Long, k: nat)
    requires UNITS * (k + |s|) == |p| && forall i :: 0 <= i < |s| ==> s[i].units == Chunk(p, k + i)
    ensures AllUnits(s) == p[UNITS * k..]
  {
    if s != [] {
      assert s[0].units == Chunk(p, k + 0);
      forall i | 0 <= i < |s[1..]|
        ensures s[1..][i].units == Chunk(p, k + 1 + i)
      {
        assert s[1..][i] == s[i + 1];
      }
      AllChunks(s[1..], p, k + 1);
      assert p[UNITS * k..UNITS * k + UNITS] + p[UNITS * (k + 1)..] == p[UNITS * k..];
    } else {
      assert p[UNITS * k..] == [];
    }
  }

  lemma {:induction false} CleanStops(a: Long, b: Long)
    ensures Clean(a + [0] + b) == Clean(a)
  {
    var all := a + [0] + b;
    if a == [] {
      assert all[0] == 0;
    } else {
      assert all[0] == a[0] && all[1..] == a[1..] + [0] + b;
      CleanStops(a[1..], b);
    }
  }

  lemma CleanPadded(name: Long)
    ensures Clean(Padded(name)) == Clean(name)
  {
    if name == [] {
      assert Padded(name)[0] == 0;
    } else if |name| % UNITS != 0 {
      CleanStops(name, seq(UNITS - 1 - |name| % UNITS, i => 0xffff));
    }
  }

  predicate Plain(name: Long) {
    forall i :: 0 <= i < |name| ==> name[i] != 0 && name[i] != 0xffff
  }

  /** What a listing shows of a long name is text, without end marks and padding units. */
  lemma {:induction false} LossyText(u: Long)
    requires Plain(u)
    ensures Plain(Lossy(u)) && Paired(Lossy(u))
  {
    if u != [] {
      if HighSurrogate(u[0]) && |u| > 1 && LowSurrogate(u[1]) {
        LossyText(u[2..]);
        assert Lossy(u)[2..] == Lossy(u[2..]);
      } else {
        LossyText(u[1..]);
        assert Lossy(u)[1..] == Lossy(u[1..]);
      }
    }
  }

  lemma {:induction false} CleanPlain(u: Long)
    ensures Plain(Clean(u))
  {
    if u != [] && u[0] != 0 {
      CleanPlain(u[1..]);
    }
  }

  /** An entry of a listing has a name that can be listed again, and a long name that can be written as it is. */
  lemma {:induction false} ListedGood(slots: seq<Slot>, i: nat, pending: seq<Part>, j: nat)
    requires i <= |slots| && j < |List(slots, i, pending)|
    ensures var d := List(slots, i, pending)[j];
            && d.name[0] != 0 && d.name[0] != 0xe5 && !IsDot(d.name)
            && (d.lfn.Some? ==> Plain(d.lfn.value) && Paired(d.lfn.value))
    decreases |slots| - i
  {
    var e := slots[i];
    var first := Adds(e, pending);
    SlotAdds(e, pending);
    if j < |first| {
      var units := AllUnits(Sorted(pending));
      CleanPlain(units);
      LossyText(Clean(units));
    } else {
      ListedGood(slots, i + 1, StillPending(e, pending), j - |first|);
    }
  }

  lemma {:induction false} CleanLength(name: Long)
    ensures |Clean(name)| <= |name|
  {
    if name != [] {
      CleanLength(name[1..]);
    }
  }

  /** A name survives exactly when it has neither the end mark nor the padding unit in it. */
  lemma {:induction false} CleanIff(name: Long)
    ensures Clean(name) == name <==> Plain(name)
  {
    if name != [] {
      CleanIff(name[1..]);
      CleanLength(name[1..]);
      if name[0] != 0 && name[0] != 0xffff {
        assert Clean(name)[1..] == Clean(name[1..]);
        assert Plain(name) <==> Plain(name[1..]) by {
          assert forall i :: 0 < i < |name| ==> name[i] == name[1..][i - 1];
        }
      }
    }
  }

  function Parts(ents: seq<Slot>): (s: seq<Part>)
    ensures |s| == |ents| && forall i :: 0 <= i < |s| ==> s[i] == PartOf(ents[i])
  {
    seq(|ents|, (i: nat) requires i < |ents| => PartOf(ents[i]))
  }

  lemma EncodedPart(ents: seq<Slot>, name: Long, chk: byte, i: nat)
    requires |name| <= UNITS * MAX_PARTS && IsEncoding(ents, name, chk) && i < |ents|
    ensures PartOf(ents[i]).num == |ents| - i && PartOf(ents[i]).chk == chk
    ensures PartOf(ents[i]).units == Chunk(Padded(name), |ents| - 1 - i)
    ensures PartSlot(ents[i])
  {
    var k := |ents| - 1 - i;
    PartReads(ents[|ents| - 1 - k], k + 1, k + 1 == |ents|, chk, Chunk(Padded(name), k));
  }

  lemma PartReads(e: Slot, num: byte, last: bool, chk: byte, c: Long)
    requires |c| == UNITS && 1 <= num <= MAX_PARTS && IsPart(e, num, last, chk, c)
    ensures PartOf(e) == Part(num, chk, c) && PartSlot(e)
  {
  }

  /** The parts written for a name give its units back: up to an end mark, without padding units. */
  lemma TakeEncoded(ents: seq<Slot>, name: Long, short: Name)
    requires |name| <= UNITS * MAX_PARTS && IsEncoding(ents, name, SumOf(short)) && Paired(name)
    ensures Take(Parts(ents), short) == Some(Clean(name))
  {
    var s, n := Parts(ents), |ents|;
    forall i | 0 <= i < n
      ensures s[i].num == n - i && s[i].chk == SumOf(short) && s[i].units == Chunk(Padded(name), n - 1 - i)
    {
      EncodedPart(ents, name, SumOf(short), i);
    }
    SortedReverses(s);
    ReversedUnits(s, Padded(name));
    CleanPadded(name);
    CleanPaired(name);
    LossyIff(Clean(name));
  }

  lemma ReversedUnits(s: seq<Part>, p: Long)
    requires UNITS * |s| == |p| && forall i :: 0 <= i < |s| ==> s[i].units == Chunk(p, |s| - 1 - i)
    ensures AllUnits(Reversed(s)) == p
  {
    var r := Reversed(s);
    forall i | 0 <= i < |r|
      ensures r[i].units == Chunk(p, 0 + i)
    {
      assert s[|s| - 1 - i].units == Chunk(p, |s| - 1 - (|s| - 1 - i));
    }
    AllChunks(r, p, 0);
  }

  // ---------------------------------------------------------------- listing around a new entry

  /** The parts stand in the slots from `i` on. */
  predicate PartsAt(slots: seq<Slot>, i: nat, ents: seq<Slot>) {
    i + |ents| <= |slots| && slots[i..i + |ents|] == ents && forall k :: 0 <= k < |ents| ==> PartSlot(ents[k])
  }

  /** Passing parts leaves all of them pending. */
  lemma {:induction false} ListParts(slots: seq<Slot>, i: nat, ents: seq<Slot>, pending: seq<Part>, at: nat, all: seq<Part>)
    requires PartsAt(slots, i, ents) && at == i + |ents| && all == pending + Parts(ents)
    ensures List(slots, i, pending) == List(slots, at, all)
    decreases |ents|
  {
    if ents == [] {
      assert all == pending;
    } else {
      var next := pending + [PartOf(ents[0])];
      PartsAtNext(slots, i, ents, pending, next, all);
      ListParts(slots, i + 1, ents[1..], next, at, all);
      StepOn(slots, i, pending, next, List(slots, i + 1, next));
    }
  }

  lemma PartsAtNext(slots: seq<Slot>, i: nat, ents: seq<Slot>, pending: seq<Part>, next: seq<Part>, all: seq<Part>)
    requires PartsAt(slots, i, ents) && ents != [] && next == pending + [PartOf(ents[0])] && all == pending + Parts(ents)
    ensures slots[i] == ents[0] && PartsAt(slots, i + 1, ents[1..]) && all == next + Parts(ents[1..])
    ensures StillPending(slots[i], pending) == next && Adds(slots[i], pending) == []
  {
    assert slots[i] == slots[i..i + |ents|][0] == ents[0];
    assert slots[i + 1..i + |ents|] == slots[i..i + |ents|][1..] == ents[1..];
    SlotAdds(ents[0], pending);
  }

  /** A listing goes on from slot `k` with the parts that wait there, if no slot before ended it. */
  lemma {:induction false} ListSplits(slots: seq<Slot>, i: nat, k: nat)
    requires i <= k <= |slots| && forall j :: i <= j < k ==> slots[j][0] != 0
    ensures List(slots, i, Waiting(slots, i)) == List(slots[..k], i, Waiting(slots, i)) + List(slots, k, Waiting(slots, k))
    decreases k - i
  {
    if i < k {
      ListSplits(slots, i + 1, k);
      StepOn(slots, i, Waiting(slots, i), Waiting(slots, i + 1), List(slots, i + 1, Waiting(slots, i + 1)));
      StepOn(slots[..k], i, Waiting(slots, i), Waiting(slots, i + 1), List(slots[..k], i + 1, Waiting(slots, i + 1)));
    }
  }

  lemma StepOn(slots: seq<Slot>, i: nat, pending: seq<Part>, next: seq<Part>, rest: seq<DirEnt>)
    requires i < |slots| && slots[i][0] != 0 && next == StillPending(slots[i], pending) && rest == List(slots, i + 1, next)
    ensures List(slots, i, pending) == Adds(slots[i], pending) + rest
  {
  }

  lemma {:induction false} WaitingSame(a: seq<Slot>, b: seq<Slot>, k: nat)
    requires k <= |a| && k <= |b| && forall j :: 0 <= j < k ==> a[j] == b[j]
    ensures Waiting(a, k) == Waiting(b, k)
  {
    if k > 0 {
      WaitingSame(a, b, k - 1);
    }
  }

  lemma {:induction false} ListSame(a: seq<Slot>, b: seq<Slot>, i: nat, pending: seq<Part>)
    requires |a| == |b| && i <= |a| && forall j :: i <= j < |a| ==> a[j] == b[j]
    ensures List(a, i, pending) == List(b, i, pending)
    decreases |a| - i
  {
    if i < |a| {
      ListSame(a, b, i + 1, StillPending(a[i], pending));
    }
  }

  /** Free slots are passed over or end the listing. */
  lemma {:induction false} ListFree(slots: seq<Slot>, i: nat, k: nat)
    requires i <= k <= |slots| && Tidy(slots) && forall j :: i <= j < k ==> FreeSlot(slots[j])
    ensures List(slots, i, []) == List(slots, k, [])
    decreases k - i
  {
    if i < k {
      if slots[i][0] == 0 {
        assert k < |slots| ==> slots[k][0] == 0;
      } else {
        SlotAdds(slots[i], []);
        ListFree(slots, i + 1, k);
      }
    }
  }

  /** The first place where `need` slots in a row are free. */
  predicate FirstRoom(slots: seq<Slot>, start: nat, need: nat) {
    Room(slots, start, need) && forall s: nat :: s < start ==> !Room(slots, s, need)
  }

  predicate Room(slots: seq<Slot>, s: nat, need: nat) {
    s + need <= |slots| && forall k :: s <= k < s + need ==> FreeSlot(slots[k])
  }

  lemma RoomAtEnd(slots: seq<Slot>, start: nat, need: nat, j: nat)
    requires Tidy(slots) && start + need <= |slots| && j < start && slots[j][0] == 0
    ensures Room(slots, j, need)
  {
  }

  lemma NoEndBefore(slots: seq<Slot>, start: nat, need: nat, j: nat)
    requires Tidy(slots) && FirstRoom(slots, start, need) && j < start
    ensures slots[j][0] != 0
  {
    if slots[j][0] == 0 {
      RoomAtEnd(slots, start, need, j);
    }
  }

  function EntrySlot(name: Name, attr: byte, cluster: nat, size: nat): (e: Slot)
    ensures e[..11] == name && e[0] == name[0] && e[11] == attr
  {
    name + [attr] + Zeros(8) + LEBytes(cluster / 0x1_0000, cluster, size)
  }

  function LEBytes(hi: nat, lo: nat, size: nat): (b: Bytes)
    ensures |b| == 12
  {
    LE(hi, 2) + Zeros(4) + LE(lo, 2) + LE(size, 4)
  }

  /** The slots with the parts and the entry from `start` on. */
  function Placed(slots: seq<Slot>, start: nat, ents: seq<Slot>, e: Slot): (r: seq<Slot>)
    requires start + |ents| < |slots|
    ensures |r| == |slots|
  {
    slots[..start] + ents + [e] + slots[start + |ents| + 1..]
  }

  /** An entry that a listing shows. */
  predicate Shown(name: Name, attr: byte) {
    name[0] != 0 && name[0] != 0xe5 && !Labelled(attr) && attr != 0x0f && !IsDot(name)
  }

  /** What the new slots add to a listing that reaches them with nothing pending. */
  lemma ListNew(slots: seq<Slot>, start: nat, ents: seq<Slot>, e: Slot, at: nat, rest: seq<DirEnt>)
    requires PartsAt(slots, start, ents) && at == start + |ents| < |slots| && slots[at] == e && ShownSlot(e)
    requires rest == List(slots, at + 1, [])
    ensures List(slots, start, []) == [EntryFrom(e, Parts(ents))] + rest
  {
    NoneBefore(Parts(ents));
    ListParts(slots, start, ents, [], at, Parts(ents));
    ShownStep(slots, at, Parts(ents), e, rest);
  }

  lemma NoneBefore(p: seq<Part>)
    ensures p == [] + p
  {
  }

  lemma ShownStep(slots: seq<Slot>, i: nat, pending: seq<Part>, e: Slot, rest: seq<DirEnt>)
    requires i < |slots| && e == slots[i] && ShownSlot(e) && rest == List(slots, i + 1, [])
    ensures List(slots, i, pending) == [EntryFrom(e, pending)] + rest
  {
    SlotAdds(e, pending);
  }

  /** Nothing but zeros after the end mark, and no part of a long name just before a free slot. */
  ghost predicate WellFormed(slots: seq<Slot>) {
    Tidy(slots) && forall s :: 0 <= s < |slots| && FreeSlot(slots[s]) ==> Waiting(slots, s) == []
  }

  /** The listings before and after share the entries before the new slots. */
  lemma SharedStart(slots: seq<Slot>, now: seq<Slot>, start: nat, need: nat)
    requires WellFormed(slots) && FirstRoom(slots, start, need) && need > 0
    requires |now| == |slots| && now[..start] == slots[..start]
    ensures List(slots, 0, []) == List(slots[..start], 0, []) + List(slots, start, [])
    ensures List(now, 0, []) == List(slots[..start], 0, []) + List(now, start, [])
  {
    forall j | 0 <= j < start
      ensures slots[j][0] != 0 && now[j] == slots[j]
    {
      NoEndBefore(slots, start, need, j);
      assert now[..start][j] == slots[..start][j];
    }
    assert FreeSlot(slots[start]);
    ListSplits(slots, 0, start);
    ListSplits(now, 0, start);
    WaitingSame(slots, now, start);
  }

  lemma PlacedParts(slots: seq<Slot>, start: nat, ents: seq<Slot>, e: Slot)
    requires start + |ents| < |slots|
    ensures var now := Placed(slots, start, ents, e);
            && now[..start] == slots[..start] && now[start..start + |ents|] == ents && now[start + |ents|] == e
            && forall j :: start + |ents| < j < |slots| ==> now[j] == slots[j]
  {
  }

  /** An entry placed in the first room of a well-formed directory is listed with its long name; every other entry is
      listed as before, in the same order. */
  lemma ListsEntry(slots: seq<Slot>, now: seq<Slot>, start: nat, ents: seq<Slot>, name: Name, attr: byte, cluster: nat, size: nat,
                   before: seq<DirEnt>, x: DirEnt, after: seq<DirEnt>)
    requires WellFormed(slots) && FirstRoom(slots, start, |ents| + 1) && Shown(name, attr)
    requires forall k :: 0 <= k < |ents| ==> PartSlot(ents[k])
    requires now == Placed(slots, start, ents, EntrySlot(name, attr, cluster, size))
    requires before == List(slots[..start], 0, []) && after == List(slots, start, [])
    requires x == DirEnt(name, IsDir(attr), Take(Parts(ents), name))
    ensures List(slots, 0, []) == before + after && List(now, 0, []) == before + [x] + after
  {
    var e: Slot := EntrySlot(name, attr, cluster, size);
    PlacedAt(slots, now, start, ents, e);
    SharedStart(slots, now, start, |ents| + 1);
    ShownEntry(name, attr, cluster, size, Parts(ents));
    NewTail(slots, now, start, ents, e, start + |ents|, after);
    Inserted(List(now, 0, []), before, List(now, start, []), x, after);
  }

  /** From the new parts on. */
  lemma NewTail(slots: seq<Slot>, now: seq<Slot>, start: nat, ents: seq<Slot>, e: Slot, at: nat, after: seq<DirEnt>)
    requires Tidy(slots) && Room(slots, start, |ents| + 1) && |now| == |slots| && at == start + |ents|
    requires PartsAt(now, start, ents) && now[at] == e && ShownSlot(e) && forall j :: at < j < |slots| ==> now[j] == slots[j]
    requires after == List(slots, start, [])
    ensures List(now, start, []) == [EntryFrom(e, Parts(ents))] + after
  {
    RoomListed(slots, now, start, at + 1);
    ListNew(now, start, ents, e, at, after);
  }

  lemma PlacedAt(slots: seq<Slot>, now: seq<Slot>, start: nat, ents: seq<Slot>, e: Slot)
    requires start + |ents| < |slots| && now == Placed(slots, start, ents, e) && forall k :: 0 <= k < |ents| ==> PartSlot(ents[k])
    ensures PartsAt(now, start, ents) && now[start + |ents|] == e && now[..start] == slots[..start]
    ensures forall j :: start + |ents| < j < |slots| ==> now[j] == slots[j]
  {
    PlacedParts(slots, start, ents, e);
  }

  lemma ShownEntry(name: Name, attr: byte, cluster: nat, size: nat, pending: seq<Part>)
    requires Shown(name, attr)
    ensures ShownSlot(EntrySlot(name, attr, cluster, size))
    ensures EntryFrom(EntrySlot(name, attr, cluster, size), pending) == DirEnt(name, IsDir(attr), Take(pending, name))
  {
  }

  lemma Inserted(all: seq<DirEnt>, before: seq<DirEnt>, rest: seq<DirEnt>, x: DirEnt, after: seq<DirEnt>)
    requires all == before + rest && rest == [x] + after
    ensures all == before + [x] + after
  {
  }

  lemma RoomListed(slots: seq<Slot>, now: seq<Slot>, start: nat, next: nat)
    requires Tidy(slots) && start <= next && Room(slots, start, next - start) && |now| == |slots|
    requires forall j :: next <= j < |slots| ==> now[j] == slots[j]
    ensures List(now, next, []) == List(slots, start, [])
  {
    ListFree(slots, start, next);
    ListSame(slots, now, next, []);
  }

  /** The directory stays well-formed. */
  lemma StaysWellFormed(slots: seq<Slot>, now: seq<Slot>, start: nat, ents: seq<Slot>, name: Name, attr: byte, cluster: nat,
                        size: nat)
    requires WellFormed(slots) && FirstRoom(slots, start, |ents| + 1) && Shown(name, attr)
    requires forall k :: 0 <= k < |ents| ==> PartSlot(ents[k])
    requires now == Placed(slots, start, ents, EntrySlot(name, attr, cluster, size))
    ensures WellFormed(now)
  {
    var e, next := EntrySlot(name, attr, cluster, size), start + |ents| + 1;
    PlacedParts(slots, start, ents, e);
    forall j | 0 <= j < next
      ensures now[j][0] != 0
    {
      PlacedUsed(slots, now, start, ents, e, j);
    }
    forall s | 0 <= s < |now| && FreeSlot(now[s])
      ensures Waiting(now, s) == []
    {
      if s < start {
        assert now[..start][s] == slots[..start][s];
        SamePrefix(slots, now, start, s);
      } else if s >= next {
        NothingWaits(slots, next);
        NothingWaits(now, next);
        WaitingAfter(slots, now, next, s);
      } else {
        PlacedUsed(slots, now, start, ents, e, s);
      }
    }
  }

  lemma NothingWaits(slots: seq<Slot>, k: nat)
    requires 0 < k <= |slots| && !PartSlot(slots[k - 1])
    ensures Waiting(slots, k) == []
  {
    SlotAdds(slots[k - 1], Waiting(slots, k - 1));
  }

  lemma SamePrefix(a: seq<Slot>, b: seq<Slot>, k: nat, s: nat)
    requires s <= k <= |a| && k <= |b| && a[..k] == b[..k]
    ensures Waiting(a, s) == Waiting(b, s)
  {
    assert forall j :: 0 <= j < s ==> a[j] == a[..k][j] && b[j] == b[..k][j];
    WaitingSame(a, b, s);
  }

  lemma PlacedUsed(slots: seq<Slot>, now: seq<Slot>, start: nat, ents: seq<Slot>, e: Slot, j: nat)
    requires Tidy(slots) && FirstRoom(slots, start, |ents| + 1) && e[0] != 0 && e[0] != 0xe5
    requires forall k :: 0 <= k < |ents| ==> PartSlot(ents[k])
    requires now == Placed(slots, start, ents, e) && j <= start + |ents|
    ensures now[j][0] != 0 && (j >= start ==> !FreeSlot(now[j]))
  {
    if j < start {
      NoEndBefore(slots, start, |ents| + 1, j);
    } else if j < start + |ents| {
      assert now[j] == ents[j - start];
    }
  }

  /** From a slot on where nothing waits in either, the same slots leave the same parts waiting. */
  lemma {:induction false} WaitingAfter(a: seq<Slot>, b: seq<Slot>, k: nat, s: nat)
    requires |a| == |b| && 0 < k <= s <= |a| && (forall j :: k <= j < |a| ==> a[j] == b[j])
    requires Waiting(a, k) == Waiting(b, k)
    ensures Waiting(a, s) == Waiting(b, s)
    decreases s - k
  {
    if s > k {
      WaitingAfter(a, b, k, s - 1);
    }
  }

  /** The long name round trip: the units come back up to an end mark and without padding units, so unchanged exactly when
      the name has neither. */
  lemma LongNameListed(slots: seq<Slot>, now: seq<Slot>, start: nat, ents: seq<Slot>, long: Long, name: Name, attr: byte,
                       cluster: nat, size: nat, before: seq<DirEnt>, after: seq<DirEnt>)
    requires |long| <= UNITS * MAX_PARTS && IsEncoding(ents, long, SumOf(name)) && Paired(long)
    requires WellFormed(slots) && FirstRoom(slots, start, |ents| + 1) && Shown(name, attr)
    requires now == Placed(slots, start, ents, EntrySlot(name, attr, cluster, size))
    requires before == List(slots[..start], 0, []) && after == List(slots, start, [])
    ensures List(slots, 0, []) == before + after
    ensures List(now, 0, []) == before + [DirEnt(name, IsDir(attr), Some(Clean(long)))] + after
    ensures Clean(long) == long <==> Plain(long)
    ensures WellFormed(now)
  {
    forall k | 0 <= k < |ents|
      ensures PartSlot(ents[k])
    {
      EncodedPart(ents, long, SumOf(name), k);
    }
    TakeEncoded(ents, long, name);
    ListsEntry(slots, now, start, ents, name, attr, cluster, size, before, DirEnt(name, IsDir(attr), Some(Clean(long))), after);
    StaysWellFormed(slots, now, start, ents, name, attr, cluster, size);
    CleanIff(long);
  }
}
