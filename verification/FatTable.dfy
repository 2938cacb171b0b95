/**
 The file allocation table of xtask/src/fat32_write.rs: a byte buffer edited in place, read as a
 table of 16-bit or 28-bit entries (Microsoft FAT32 File System Specification 1.03, section "FAT
 Data Structure"), and the chain operations on it.
 */
module FatTable {
  import opened Base
  import opened Words

  datatype Kind = Fat16 | Fat32

  /** What the table says of each cluster: free (0), the next cluster of the chain, or its end. */
  type Table = seq<nat>

  const FREE_LIMIT: nat := 1_000_000

  function Width(k: Kind): nat {
    if k.Fat16? then 2 else 4
  }

  function Modulus(k: Kind): nat {
    if k.Fat16? then 0x1_0000 else 0x1000_0000
  }

  /** Entries from here on end a chain. */
  function EocMark(k: Kind): nat {
    if k.Fat16? then 0xfff8 else 0x0fff_fff8
  }

  /** What a chain is ended with. */
  function EocValue(k: Kind): nat {
    if k.Fat16? then 0xffff else 0x0fff_ffff
  }

  predicate IsEoc(k: Kind, e: nat) {
    e >= EocMark(k)
  }

  // ---------------------------------------------------------------- entries as bytes

  function Count(k: Kind, buf: Bytes): nat {
    |buf| / Width(k)
  }

  function Offset(k: Kind, c: nat): nat {
    if k.Fat16? then 2 * c else 4 * c
  }

  /** The raw word of an entry. */
  function Word(k: Kind, buf: Bytes, c: nat): nat
    requires Offset(k, c + 1) <= |buf|
  {
    FromLE(buf[Offset(k, c)..Offset(k, c + 1)])
  }

  /** The top four bits of a 32-bit entry are reserved. */
  function Entry(k: Kind, buf: Bytes, c: nat): (e: nat)
    requires Offset(k, c + 1) <= |buf|
    ensures e < Modulus(k)
  {
    FromLEBound(buf[Offset(k, c)..Offset(k, c + 1)]);
    ExpValues();
    Word(k, buf, c) % Modulus(k)
  }

  function PutWord(k: Kind, buf: Bytes, c: nat, v: nat): (r: Bytes)
    requires Offset(k, c + 1) <= |buf|
    ensures |r| == |buf|
  {
    buf[..Offset(k, c)] + LE(v, Width(k)) + buf[Offset(k, c + 1)..]
  }

  /** Setting an entry keeps the reserved bits. */
  function PutEntry(k: Kind, buf: Bytes, c: nat, v: nat): (r: Bytes)
    requires Offset(k, c + 1) <= |buf|
    ensures |r| == |buf|
  {
    PutWord(k, buf, c, Word(k, buf, c) / Modulus(k) * Modulus(k) + v % Modulus(k))
  }

  lemma InBuffer(k: Kind, buf: Bytes, c: nat)
    requires c < Count(k, buf)
    ensures Offset(k, c + 1) <= |buf|
  {
  }

  function EntryAt(k: Kind, buf: Bytes, c: nat): (e: nat)
    requires c < Count(k, buf)
    ensures e < Modulus(k)
  {
    InBuffer(k, buf, c);
    Entry(k, buf, c)
  }

  function View(k: Kind, buf: Bytes): (t: Table)
    ensures |t| == Count(k, buf)
    ensures forall c :: 0 <= c < |t| ==> t[c] == EntryAt(k, buf, c)
  {
    seq(Count(k, buf), (c: nat) requires c < Count(k, buf) => EntryAt(k, buf, c))
  }

  lemma WordPut(k: Kind, buf: Bytes, c: nat, v: nat, d: nat)
    requires Offset(k, c + 1) <= |buf| && Offset(k, d + 1) <= |buf| && v < Exp256(Width(k))
    ensures Word(k, PutWord(k, buf, c, v), d) == if d == c then v else Word(k, buf, d)
  {
    var r := PutWord(k, buf, c, v);
    if d == c {
      assert r[Offset(k, c)..Offset(k, c + 1)] == LE(v, Width(k));
      LERoundTrip(v, Width(k));
    } else {
      OtherWord(k, buf, c, v, d, Offset(k, d), Offset(k, d + 1));
    }
  }

  lemma OtherWord(k: Kind, buf: Bytes, c: nat, v: nat, d: nat, lo: nat, hi: nat)
    requires Offset(k, c + 1) <= |buf| && hi <= |buf| && lo == Offset(k, d) && hi == Offset(k, d + 1) && d != c
    ensures PutWord(k, buf, c, v)[lo..hi] == buf[lo..hi]
  {
    var r := PutWord(k, buf, c, v);
    forall x | lo <= x < hi
      ensures r[x] == buf[x]
    {
    }
    SlicesEqual(r, buf, lo, hi);
  }

  lemma SlicesEqual(a: Bytes, b: Bytes, lo: nat, hi: nat)
    requires lo <= hi <= |a| == |b| && forall x :: lo <= x < hi ==> a[x] == b[x]
    ensures a[lo..hi] == b[lo..hi]
  {
  }

  lemma SetEntryWord(k: Kind, w: nat, v: nat)
    requires w < Exp256(Width(k))
    ensures var x := w / Modulus(k) * Modulus(k) + v % Modulus(k);
            x < Exp256(Width(k)) && x % Modulus(k) == v % Modulus(k)
  {
    ExpValues();
  }

  /** Setting one entry changes that entry of the table and no other. */
  lemma ViewPut(k: Kind, buf: Bytes, c: nat, v: nat)
    requires c < Count(k, buf)
    ensures Offset(k, c + 1) <= |buf|
    ensures View(k, PutEntry(k, buf, c, v)) == View(k, buf)[c := v % Modulus(k)]
  {
    forall d | 0 <= d < Count(k, buf)
      ensures View(k, PutEntry(k, buf, c, v))[d] == View(k, buf)[c := v % Modulus(k)][d]
    {
      EntryPut(k, buf, c, v, d);
    }
  }

  lemma EntryPut(k: Kind, buf: Bytes, c: nat, v: nat, d: nat)
    requires c < Count(k, buf) && d < Count(k, buf)
    ensures Offset(k, c + 1) <= |buf|
    ensures EntryAt(k, PutEntry(k, buf, c, v), d) == if d == c then v % Modulus(k) else EntryAt(k, buf, d)
  {
    var w := Word(k, buf, c);
    FromLEBound(buf[Offset(k, c)..Offset(k, c + 1)]);
    SetEntryWord(k, w, v);
    EntryOfWord(k, buf, c, w / Modulus(k) * Modulus(k) + v % Modulus(k), d);
  }

  lemma EntryOfWord(k: Kind, buf: Bytes, c: nat, x: nat, d: nat)
    requires Offset(k, c + 1) <= |buf| && d < Count(k, buf) && x < Exp256(Width(k))
    ensures EntryAt(k, PutWord(k, buf, c, x), d) == if d == c then x % Modulus(k) else EntryAt(k, buf, d)
  {
    InBuffer(k, buf, d);
    WordPut(k, buf, c, x, d);
  }

  /** Setting one entry keeps the top four bits of every 32-bit word. */
  lemma ReservedKept(buf: Bytes, c: nat, v: nat, d: nat)
    requires c < Count(Fat32, buf) && d < Count(Fat32, buf)
    ensures 4 * c + 4 <= |buf| && 4 * d + 4 <= |buf|
    ensures FromLE(PutEntry(Fat32, buf, c, v)[4 * d..4 * d + 4]) / 0x1000_0000 == FromLE(buf[4 * d..4 * d + 4]) / 0x1000_0000
  {
    var w := Word(Fat32, buf, c);
    FromLEBound(buf[4 * c..4 * c + 4]);
    SetEntryWord(Fat32, w, v);
    WordPut(Fat32, buf, c, w / 0x1000_0000 * 0x1000_0000 + v % 0x1000_0000, d);
  }

  // ---------------------------------------------------------------- runs and chains of a table

  predicate RunFree(t: Table, s: nat, n: nat) {
    2 <= s && s + n <= |t| && forall c :: s <= c < s + n ==> t[c] == 0
  }

  ghost predicate NoRun(t: Table, n: nat) {
    forall s: nat :: !RunFree(t, s, n)
  }

  ghost predicate FirstRun(t: Table, s: nat, n: nat) {
    RunFree(t, s, n) && forall r: nat :: r < s ==> !RunFree(t, r, n)
  }

  /** The clusters s, s + 1, ..., s + n - 1 form one chain that ends there. */
  predicate IsRun(k: Kind, t: Table, s: nat, n: nat) {
    && n > 0 && 2 <= s && s + n <= |t|
    && (forall c :: s <= c < s + n - 1 ==> t[c] == c + 1)
    && IsEoc(k, t[s + n - 1])
  }

  function MarkedEntry(k: Kind, s: nat, n: nat, c: nat): nat {
    if c + 1 == s + n then EocValue(k) else c + 1
  }

  function Marked(k: Kind, t: Table, s: nat, n: nat): (r: Table)
    requires s + n <= |t|
    ensures |r| == |t|
    ensures forall c :: 0 <= c < |t| ==> r[c] == if s <= c < s + n then MarkedEntry(k, s, n, c) else t[c]
  {
    seq(|t|, (c: nat) requires c < |t| => if s <= c < s + n then MarkedEntry(k, s, n, c) else t[c])
  }

  /** The clusters s, ..., s + n - 1 linked to their successors and not yet ended. */
  function Linked(t: Table, s: nat, n: nat): (r: Table)
    requires s + n <= |t|
    ensures |r| == |t|
    ensures forall c :: 0 <= c < |t| ==> r[c] == if s <= c < s + n then c + 1 else t[c]
  {
    seq(|t|, (c: nat) requires c < |t| => if s <= c < s + n then c + 1 else t[c])
  }

  function Cleared(t: Table, s: nat, n: nat): (r: Table)
    requires s + n <= |t|
    ensures |r| == |t|
    ensures forall c :: 0 <= c < |t| ==> r[c] == if s <= c < s + n then 0 else t[c]
  {
    seq(|t|, (c: nat) requires c < |t| => if s <= c < s + n then 0 else t[c])
  }

  /** Cluster numbers stay below the values reserved for bad clusters and chain ends. */
  predicate Numbered(k: Kind, t: Table) {
    |t| < EocMark(k)
  }

  /** Following a chain: the clusters visited, at most `fuel` of them. */
  function Walk(k: Kind, t: Table, c: nat, fuel: nat): (cs: seq<nat>)
    ensures forall i :: 0 <= i < |cs| ==> 2 <= cs[i] < |t|
    decreases fuel, c
  {
    if fuel == 0 || c < 2 || c >= |t| then []
    else [c] + Walk(k, t, t[c], fuel - 1)
  }

  lemma {:induction false} RunWalks(k: Kind, t: Table, s: nat, n: nat, fuel: nat)
    requires Numbered(k, t) && IsRun(k, t, s, n) && n <= fuel
    ensures Walk(k, t, s, fuel) == seq(n, i => s + i)
    decreases n
  {
    if n == 1 {
      assert Walk(k, t, t[s], fuel - 1) == [];
    } else {
      assert t[s] == s + 1;
      RunWalks(k, t, s + 1, n - 1, fuel - 1);
    }
  }

  /** Marking a free run makes it a chain, walked from end to end, and clearing it restores the table. */
  lemma MarkThenClear(k: Kind, t: Table, s: nat, n: nat, fuel: nat)
    requires Numbered(k, t) && RunFree(t, s, n) && 0 < n <= fuel
    ensures IsRun(k, Marked(k, t, s, n), s, n)
    ensures Walk(k, Marked(k, t, s, n), s, fuel) == seq(n, i => s + i)
    ensures Cleared(Marked(k, t, s, n), s, n) == t
  {
    RunWalks(k, Marked(k, t, s, n), s, n, fuel);
  }

  lemma LinkNone(t: Table, s: nat)
    requires s <= |t|
    ensures Linked(t, s, 0) == t && Cleared(t, s, 0) == t
  {
  }

  lemma LinkStep(k: Kind, t: Table, s: nat, i: nat)
    requires Numbered(k, t) && s + i < |t|
    ensures Linked(t, s, i)[s + i := (s + i + 1) % Modulus(k)] == Linked(t, s, i + 1)
  {
  }

  lemma LinkEnd(k: Kind, t: Table, s: nat, n: nat)
    requires n > 0 && s + n <= |t|
    ensures Linked(t, s, n - 1)[s + n - 1 := EocValue(k) % Modulus(k)] == Marked(k, t, s, n)
  {
  }

  // ---------------------------------------------------------------- editing the buffer

  /** The word of one entry is replaced, keeping its reserved bits, and no other byte changes. */
  method SetFatBytes(k: Kind, fat: array<byte>, c: nat, v: nat)
    requires c < Count(k, fat[..])
    modifies fat
    ensures fat[..] == PutEntry(k, old(fat[..]), c, v)
  {
    var w := Word(k, fat[..], c) / Modulus(k) * Modulus(k) + v % Modulus(k);
    Overwrite(fat, Offset(k, c), LE(w, Width(k)));
  }

  method Overwrite(a: array<byte>, o: nat, bytes: Bytes)
    requires o + |bytes| <= a.Length
    modifies a
    ensures a[..] == old(a[..o]) + bytes + old(a[o + |bytes|..])
  {
    ghost var before := a[..];
    for i := 0 to |bytes|
      invariant a[..] == before[..o] + bytes[..i] + before[o + i..]
    {
      a[o + i] := bytes[i];
    }
    assert bytes[..|bytes|] == bytes;
  }

  method SetFat(k: Kind, fat: array<byte>, c: nat, v: nat)
    requires c < Count(k, fat[..])
    modifies fat
    ensures View(k, fat[..]) == View(k, old(fat[..]))[c := v % Modulus(k)]
  {
    ViewPut(k, fat[..], c, v);
    SetFatBytes(k, fat, c, v);
  }

  method FatEntry(k: Kind, fat: array<byte>, c: nat) returns (e: nat)
    requires c < Count(k, fat[..])
    ensures e == View(k, fat[..])[c]
  {
    e := EntryAt(k, fat[..], c);
  }

  /** First fit: the least free run, or nothing when there is none. */
  method FindRun(k: Kind, fat: array<byte>, count: nat) returns (r: Option<nat>)
    requires count > 0
    ensures if r.Some? then FirstRun(View(k, fat[..]), r.value, count) else NoRun(View(k, fat[..]), count)
  {
    ghost var t := View(k, fat[..]);
    var max := fat.Length / Width(k);
    var cluster := 2;
    while cluster + count <= max
      invariant 2 <= cluster
      invariant forall s: nat :: s < cluster ==> !RunFree(t, s, count)
    {
      var ok := true;
      var i := 0;
      while i < count
        invariant 0 <= i <= count
        invariant forall c :: cluster <= c < cluster + i ==> t[c] == 0
      {
        var e := FatEntry(k, fat, cluster + i);
        if e != 0 {
          ok := false;
          break;
        }
        i := i + 1;
      }
      if i == count {
        return Some(cluster);
      }
      assert t[cluster + i] != 0;
      cluster := cluster + 1;
    }
    r := None;
  }

  method RunIsFree(k: Kind, fat: array<byte>, start: nat, count: nat) returns (free: bool)
    ensures free <==> count == 0 || RunFree(View(k, fat[..]), start, count)
  {
    if count == 0 {
      return true;
    }
    ghost var t := View(k, fat[..]);
    var max := fat.Length / Width(k);
    if start < 2 || start + count > max {
      return false;
    }
    for i := 0 to count
      invariant forall c :: start <= c < start + i ==> t[c] == 0
    {
      var e := FatEntry(k, fat, start + i);
      if e != 0 {
        return false;
      }
    }
    return true;
  }

  method MarkRun(k: Kind, fat: array<byte>, start: nat, count: nat)
    requires count > 0 && start + count <= Count(k, fat[..]) && Numbered(k, View(k, fat[..]))
    modifies fat
    ensures View(k, fat[..]) == Marked(k, View(k, old(fat[..])), start, count)
  {
    ghost var t := View(k, fat[..]);
    LinkNone(t, start);
    for i := 0 to count - 1
      invariant View(k, fat[..]) == Linked(t, start, i)
    {
      SetFat(k, fat, start + i, start + i + 1);
      LinkStep(k, t, start, i);
    }
    SetFat(k, fat, start + count - 1, EocValue(k));
    LinkEnd(k, t, start, count);
  }

  /** The table after `newN` clusters from `start` hold what `oldN` did. */
  function Extended(k: Kind, t: Table, start: nat, oldN: nat, newN: nat): (r: Table)
    requires newN > oldN > 0 ==> start + newN <= |t|
    ensures |r| == |t|
  {
    if newN <= oldN || oldN == 0 then t
    else Marked(k, t[start + oldN - 1 := start + oldN], start + oldN, newN - oldN)
  }

  /** Extending a run into free clusters makes it the longer run. */
  lemma ExtendedIsRun(k: Kind, t: Table, start: nat, oldN: nat, newN: nat)
    requires Numbered(k, t) && IsRun(k, t, start, oldN) && newN > oldN && RunFree(t, start + oldN, newN - oldN)
    ensures IsRun(k, Extended(k, t, start, oldN, newN), start, newN)
    ensures forall c :: 0 <= c < |t| && !(start <= c < start + newN) ==> Extended(k, t, start, oldN, newN)[c] == t[c]
  {
  }

  method ExtendChain(k: Kind, fat: array<byte>, start: nat, oldN: nat, newN: nat)
    requires Numbered(k, View(k, fat[..])) && oldN > 0 && (newN > oldN ==> start + newN <= Count(k, fat[..]))
    modifies fat
    ensures View(k, fat[..]) == Extended(k, View(k, old(fat[..])), start, oldN, newN)
    ensures newN <= oldN ==> fat[..] == old(fat[..])
  {
    if newN <= oldN {
      return;
    }
    var extra := start + oldN;
    SetFat(k, fat, start + oldN - 1, extra);
    MarkRun(k, fat, extra, newN - oldN);
  }

  /** The table after at most `fuel` clusters of the chain from `c` are cleared, one after the other. */
  function FreedFrom(k: Kind, t: Table, c: nat, fuel: nat): (u: Table)
    ensures |u| == |t|
    decreases fuel, c
  {
    if fuel == 0 || c < 2 || c >= |t| then t
    else
      var next := t[c];
      if next < 2 || IsEoc(k, next) || next == c then t[c := 0] else FreedFrom(k, t[c := 0], next, fuel - 1)
  }

  /** Those clusters are all in the table. */
  predicate FreesInside(k: Kind, t: Table, c: nat, fuel: nat)
    decreases fuel, c
  {
    fuel == 0 || c < 2
    || (c < |t| && (t[c] < 2 || IsEoc(k, t[c]) || t[c] == c || FreesInside(k, t[c := 0], t[c], fuel - 1)))
  }

  /** On a contiguous run, what is freed is the run up to the step limit. */
  lemma {:induction false} FreedRun(k: Kind, t: Table, s: nat, n: nat, fuel: nat)
    requires Numbered(k, t) && IsRun(k, t, s, n)
    ensures FreesInside(k, t, s, fuel) && FreedFrom(k, t, s, fuel) == Cleared(t, s, Min(n, fuel))
    decreases fuel, s
  {
    if fuel > 0 {
      assert t[s := 0] == Cleared(t, s, 1);
      if n > 1 {
        FreedRun(k, t[s := 0], s + 1, n - 1, fuel - 1);
      }
    }
  }

  /** At most a million steps. */
  method FreeChain(k: Kind, fat: array<byte>, start: nat)
    requires FreesInside(k, View(k, fat[..]), start, FREE_LIMIT)
    modifies fat
    ensures View(k, fat[..]) == FreedFrom(k, View(k, old(fat[..])), start, FREE_LIMIT)
  {
    ghost var t := View(k, fat[..]);
    var c := start;
    var i: nat := 0;
    while i < FREE_LIMIT
      invariant i <= FREE_LIMIT && FreesInside(k, View(k, fat[..]), c, FREE_LIMIT - i)
      invariant FreedFrom(k, View(k, fat[..]), c, FREE_LIMIT - i) == FreedFrom(k, t, start, FREE_LIMIT)
    {
      if c < 2 {
        break;
      }
      var next := FatEntry(k, fat, c);
      SetFat(k, fat, c, 0);
      i := i + 1;
      if next < 2 || IsEoc(k, next) || next == c {
        return;
      }
      c := next;
    }
  }
}
