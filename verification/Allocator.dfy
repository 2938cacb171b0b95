/**
 The malloc of tools/wild-soso/soso_libc_alloc.c over a byte store: size classes with free lists
 threaded through freed blocks, a bump slab, and mappings of their own for large or aligned blocks.

 `mmap` may fail or return any fresh page-aligned range; each public call runs under the lock and is
 one atomic step. Masking with a power of two is written as a remainder.
 */
module Allocator {
  import opened Base
  import opened Words
  import opened Memory

  const HDR: nat := 48
  const NCLASS: nat := 13
  const SLAB: nat := 1024 * 1024
  const PAGE: nat := 4096
  const MAGIC: u64 := 0xC038_C038_C038_C038
  const CLASS: seq<nat> := [16, 32, 64, 128, 256, 512, 1024, 2048, 4096, 8192, 16384, 32768, 65536]

  /** `mmap_anon` takes a negative or zero result for a failure. */
  const TOP: nat := 0x8000_0000_0000_0000

  datatype Hdr = Hdr(base: nat, span: nat, cap: nat, size: nat, magic: nat)

  /** A block that exists, live or free: the addresses [lo, hi) are its own, header included. */
  datatype Blk = Blk(lo: nat, hi: nat, base: nat, span: nat, cap: nat, cls: nat, live: bool, size: nat)

  // ---------------------------------------------------------------- arithmetic

  predicate Aligned(x: nat) {
    x % 16 == 0
  }

  lemma AlignedSum(x: nat, y: nat)
    requires Aligned(x) && Aligned(y)
    ensures Aligned(x + y)
  {
  }

  function Exp(k: nat): (e: nat)
    ensures e > 0
  {
    if k == 0 then 1 else 2 * Exp(k - 1)
  }

  lemma {:induction false} ExpMonotone(a: nat, b: nat)
    requires a <= b
    ensures Exp(a) <= Exp(b)
  {
    if a < b {
      ExpMonotone(a, b - 1);
    }
  }

  function ClassSize(c: nat): (n: nat)
    requires c < NCLASS
    ensures 16 <= n <= 65536 && Aligned(n)
  {
    ExpMonotone(c, 12);
    assert Exp(12) == 4096;
    16 * Exp(c)
  }

  /** The table of class sizes doubles from 16. */
  lemma ClassTable(c: nat)
    requires c < NCLASS
    ensures CLASS[c] == ClassSize(c)
  {
    assert Exp(0) == 1 && Exp(1) == 2 && Exp(2) == 4 && Exp(3) == 8 && Exp(4) == 16 && Exp(5) == 32;
    assert Exp(6) == 64 && Exp(7) == 128 && Exp(8) == 256 && Exp(9) == 512 && Exp(10) == 1024 && Exp(11) == 2048;
  }

  predicate IsPow2(a: nat) {
    a == 1 || (a > 0 && a % 2 == 0 && IsPow2(a / 2))
  }

  function AlignUp(x: nat, a: nat): (r: nat)
    requires a > 0
    ensures x <= r < x + a && r % a == 0
  {
    var y := x + a - 1;
    assert y == y / a * a + y % a;
    MultipleOf(y / a, a);
    y / a * a
  }

  lemma MultipleOf(q: nat, a: nat)
    requires a > 0
    ensures q * a % a == 0
  {
    assert q * a == a * q + 0;
    Remainder(q * a, q, a, 0);
  }

  lemma Pow2Multiple(a: nat)
    requires IsPow2(a) && a >= 16
    ensures a % 16 == 0
  {
    assert IsPow2(a / 2) && IsPow2(a / 2 / 2) && IsPow2(a / 2 / 2 / 2);
    assert a == 2 * (a / 2) && a / 2 == 2 * (a / 2 / 2) && a / 2 / 2 == 2 * (a / 2 / 2 / 2);
    assert a / 2 / 2 / 2 >= 2 && a / 2 / 2 / 2 % 2 == 0;
  }

  lemma MultipleOfMultiple(x: nat, a: nat, k: nat)
    requires a > 0 && k > 0 && x % a == 0 && a % k == 0
    ensures x % k == 0
  {
    assert x == x / a * a && a == a / k * k;
    assert x / a * (a / k * k) == (x / a * (a / k)) * k;
    MultipleOf(x / a * (a / k), k);
  }

  // ---------------------------------------------------------------- the heap invariant

  function HdrAt(m: Mem, h: nat): Hdr
    requires Mapped(m, h, h + HDR)
  {
    Hdr(ReadWord(m, h), ReadWord(m, h + 8), ReadWord(m, h + 16), ReadWord(m, h + 24), ReadWord(m, h + 32))
  }

  predicate ShapeOk(p: nat, b: Blk) {
    && 0 < b.lo && b.lo + HDR <= p && p + b.cap <= b.hi <= TOP && Aligned(p)
    && (if b.cls < NCLASS
        then b.span == 0 && b.cap == ClassSize(b.cls) && b.lo == p - HDR && b.hi == p + b.cap
        else b.live && b.span == b.hi - b.lo && b.base == b.lo)
    && (b.live ==> 1 <= b.size <= b.cap)
  }

  ghost predicate Fixed(m: Mem, p: nat, b: Blk)
    requires ShapeOk(p, b) && Mapped(m, b.lo, b.hi)
  {
    var h := HdrAt(m, p - HDR);
    h.base == b.base && h.span == b.span && h.cap == b.cap
  }

  /** The magic number marks exactly the live blocks. */
  ghost predicate Tagged(m: Mem, p: nat, b: Blk)
    requires ShapeOk(p, b) && Mapped(m, b.lo, b.hi)
  {
    var h := HdrAt(m, p - HDR);
    (h.magic == MAGIC <==> b.live) && (b.live ==> h.size == b.size)
  }

  ghost predicate BlockOk(m: Mem, p: nat, b: Blk) {
    match b
    case Blk(lo, hi, _, _, _, _, _, _) => ShapeOk(p, b) && Mapped(m, lo, hi) && Fixed(m, p, b) && Tagged(m, p, b)
  }

  predicate Apart(b: Blk, lo: nat, hi: nat) {
    b.hi <= lo || hi <= b.lo
  }

  ghost predicate AllApart(blocks: map<nat, Blk>) {
    forall p, q :: p in blocks && q in blocks && p != q ==> Apart(blocks[p], blocks[q].lo, blocks[q].hi)
  }

  /** A free list as it lies in memory: each free block holds the address of the next in its first word. */
  ghost predicate Chain(m: Mem, head: nat, l: seq<nat>)
    decreases l
  {
    if l == [] then head == 0
    else head == l[0] && head != 0 && Mapped(m, head, head + WORD) && Chain(m, ReadWord(m, head), l[1..])
  }

  ghost predicate NoDup(l: seq<nat>) {
    forall i, j :: 0 <= i < j < |l| ==> l[i] != l[j]
  }

  /** The free list of a class holds each free block of that class exactly once and nothing else. */
  ghost predicate ListOk(m: Mem, head: nat, l: seq<nat>, blocks: map<nat, Blk>, cls: nat) {
    && Chain(m, head, l) && NoDup(l)
    && forall p :: p in l <==> p in blocks && !blocks[p].live && blocks[p].cls == cls
  }

  ghost predicate RegionOk(m: Mem, base: nat, off: nat, end: nat, blocks: map<nat, Blk>) {
    || (off == 0 && end == 0)
    || (&& end == SLAB && 0 < base && Aligned(base) && Aligned(off) && off <= end && base + end <= TOP
        && Mapped(m, base + off, base + end)
        && (off < end ==> forall p :: p in blocks ==> Apart(blocks[p], base + off, base + end)))
  }

  // ---------------------------------------------------------------- what a write to one block leaves alone

  lemma HeaderKept(m: Mem, n: Mem, h: nat)
    requires Mapped(m, h, h + HDR) && SameInside(m, n, h, h + HDR)
    ensures Mapped(n, h, h + HDR) && HdrAt(n, h) == HdrAt(m, h)
  {
    WordKept(m, n, h);
    WordKept(m, n, h + 8);
    WordKept(m, n, h + 16);
    WordKept(m, n, h + 24);
    WordKept(m, n, h + 32);
  }

  lemma BlockKept(m: Mem, n: Mem, p: nat, b: Blk)
    requires BlockOk(m, p, b) && SameInside(m, n, b.lo, b.hi)
    ensures BlockOk(n, p, b)
  {
    HeaderKept(m, n, p - HDR);
  }

  lemma {:induction false} ChainKept(m: Mem, n: Mem, head: nat, l: seq<nat>)
    requires Chain(m, head, l)
    requires forall p :: p in l ==> SameInside(m, n, p, p + WORD)
    ensures Chain(n, head, l)
    decreases l
  {
    if l != [] {
      assert head in l;
      WordKept(m, n, head);
      assert forall p :: p in l[1..] ==> p in l;
      ChainKept(m, n, ReadWord(m, head), l[1..]);
    }
  }

  // ---------------------------------------------------------------- the whole heap

  datatype State = State(mem: Mem, bins: seq<nat>, slabBase: nat, slabOff: nat, slabEnd: nat)

  /** Blocks in `pending` are being handed out: on no list, and their tag is not written yet. */
  ghost predicate BlocksOk(m: Mem, blocks: map<nat, Blk>, pending: set<nat>) {
    forall p :: p in blocks ==>
      if p in pending then ShapeOk(p, blocks[p]) && Mapped(m, blocks[p].lo, blocks[p].hi) && Fixed(m, p, blocks[p]) && blocks[p].live
      else BlockOk(m, p, blocks[p])
  }

  ghost predicate ListsOk(m: Mem, bins: seq<nat>, lists: seq<seq<nat>>, blocks: map<nat, Blk>) {
    && |bins| == |lists| == NCLASS
    && forall c :: 0 <= c < NCLASS ==> ListOk(m, bins[c], lists[c], blocks, c)
  }

  ghost predicate Invariant(s: State, blocks: map<nat, Blk>, lists: seq<seq<nat>>, pending: set<nat>) {
    && BlocksOk(s.mem, blocks, pending)
    && AllApart(blocks)
    && ListsOk(s.mem, s.bins, lists, blocks)
    && RegionOk(s.mem, s.slabBase, s.slabOff, s.slabEnd, blocks)
  }

  /** The invariant, kept folded so that proofs about the methods stay small: `Open` and `Close` unfold it. */
  ghost predicate Folded(s: State, blocks: map<nat, Blk>, lists: seq<seq<nat>>, pending: set<nat>, k: nat)
    decreases k
  {
    if k == 0 then Invariant(s, blocks, lists, pending) else Folded(s, blocks, lists, pending, k - 1)
  }

  ghost predicate Good(s: State, blocks: map<nat, Blk>, lists: seq<seq<nat>>, pending: set<nat>) {
    |s.bins| == |lists| == NCLASS && Folded(s, blocks, lists, pending, FOLDS)
  }

  lemma {:induction false} Unfold(s: State, blocks: map<nat, Blk>, lists: seq<seq<nat>>, pending: set<nat>, k: nat)
    ensures Folded(s, blocks, lists, pending, k) <==> Invariant(s, blocks, lists, pending)
    decreases k
  {
    if k > 0 {
      Unfold(s, blocks, lists, pending, k - 1);
    }
  }

  lemma Open(s: State, blocks: map<nat, Blk>, lists: seq<seq<nat>>, pending: set<nat>)
    requires Good(s, blocks, lists, pending)
    ensures Invariant(s, blocks, lists, pending)
  {
    Unfold(s, blocks, lists, pending, FOLDS);
  }

  lemma Close(s: State, blocks: map<nat, Blk>, lists: seq<seq<nat>>, pending: set<nat>)
    requires Invariant(s, blocks, lists, pending)
    ensures Good(s, blocks, lists, pending)
  {
    Unfold(s, blocks, lists, pending, FOLDS);
  }

  /** Every live block keeps its bytes, header included. */
  ghost predicate KeepsLive(m: Mem, n: Mem, blocks: map<nat, Blk>) {
    KeepsBlocks(m, n, blocks, set p | p in blocks && !blocks[p].live)
  }

  ghost predicate KeepsBlocks(m: Mem, n: Mem, blocks: map<nat, Blk>, but: set<nat>) {
    forall p :: p in blocks && p !in but ==> SameInside(m, n, blocks[p].lo, blocks[p].hi)
  }

  lemma ApartKept(m: Mem, n: Mem, blocks: map<nat, Blk>, pending: set<nat>, p: nat)
    requires BlocksOk(m, blocks, pending) && AllApart(blocks) && p in blocks
    requires SameOutside(m, n, blocks[p].lo, blocks[p].hi)
    ensures KeepsBlocks(m, n, blocks, {p})
  {
    forall q | q in blocks && q != p
      ensures SameInside(m, n, blocks[q].lo, blocks[q].hi)
    {
      assert Apart(blocks[q], blocks[p].lo, blocks[p].hi);
      assert Mapped(m, blocks[q].lo, blocks[q].hi);
    }
  }

  /** Lists survive any change of memory that leaves the free blocks alone. */
  lemma ListsKept(m: Mem, n: Mem, bins: seq<nat>, lists: seq<seq<nat>>, blocks: map<nat, Blk>, pending: set<nat>, but: set<nat>)
    requires BlocksOk(m, blocks, pending) && ListsOk(m, bins, lists, blocks) && KeepsBlocks(m, n, blocks, but)
    requires forall p :: p in but && p in blocks ==> blocks[p].live
    ensures ListsOk(n, bins, lists, blocks)
  {
    forall c | 0 <= c < NCLASS
      ensures ListOk(n, bins[c], lists[c], blocks, c)
    {
      assert ListOk(m, bins[c], lists[c], blocks, c);
      forall p | p in lists[c]
        ensures SameInside(m, n, p, p + WORD)
      {
        assert p !in but && BlockOk(m, p, blocks[p]);
      }
      ChainKept(m, n, bins[c], lists[c]);
    }
  }

  lemma BlocksKept(m: Mem, n: Mem, blocks: map<nat, Blk>, pending: set<nat>, but: set<nat>)
    requires BlocksOk(m, blocks, pending) && KeepsBlocks(m, n, blocks, but)
    ensures forall p :: p in blocks && p !in but && p !in pending ==> BlockOk(n, p, blocks[p])
  {
    forall p | p in blocks && p !in but && p !in pending
      ensures BlockOk(n, p, blocks[p])
    {
      BlockKept(m, n, p, blocks[p]);
    }
  }

  /** One live block changes inside its own addresses and is in order afterwards. */
  lemma OneChanged(s: State, n: Mem, blocks: map<nat, Blk>, lists: seq<seq<nat>>, pending: set<nat>, p: nat, b: Blk)
    requires Good(s, blocks, lists, pending) && pending <= {p} && p in blocks && blocks[p].live
    requires SameOutside(s.mem, n, blocks[p].lo, blocks[p].hi)
    requires b == blocks[p].(size := b.size) && BlockOk(n, p, b)
    ensures Good(s.(mem := n), blocks[p := b], lists, {})
    ensures KeepsBlocks(s.mem, n, blocks, {p})
  {
    Open(s, blocks, lists, pending);
    ApartKept(s.mem, n, blocks, pending, p);
    ListsKept(s.mem, n, s.bins, lists, blocks, pending, {p});
    BlocksKept(s.mem, n, blocks, pending, {p});
    Resized(n, s.bins, lists, blocks, p, b);
    RegionKept(s, n, blocks, blocks[p := b]);
    Close(s.(mem := n), blocks[p := b], lists, {});
  }

  lemma Resized(m: Mem, bins: seq<nat>, lists: seq<seq<nat>>, blocks: map<nat, Blk>, p: nat, b: Blk)
    requires ListsOk(m, bins, lists, blocks) && AllApart(blocks)
    requires p in blocks && blocks[p].live && b == blocks[p].(size := b.size)
    ensures ListsOk(m, bins, lists, blocks[p := b]) && AllApart(blocks[p := b])
  {
    forall c | 0 <= c < NCLASS
      ensures ListOk(m, bins[c], lists[c], blocks[p := b], c)
    {
      assert ListOk(m, bins[c], lists[c], blocks, c);
    }
  }

  lemma RegionKept(s: State, n: Mem, blocks: map<nat, Blk>, blocks': map<nat, Blk>)
    requires RegionOk(s.mem, s.slabBase, s.slabOff, s.slabEnd, blocks) && s.mem.Keys <= n.Keys
    requires forall p :: p in blocks' ==> p in blocks && blocks'[p].lo == blocks[p].lo && blocks'[p].hi == blocks[p].hi
    ensures RegionOk(n, s.slabBase, s.slabOff, s.slabEnd, blocks')
  {
  }

  lemma SetWord(m: Mem, h: nat, k: nat, v: u64)
    requires Mapped(m, h, h + HDR) && k in {0, 8, 16, 24, 32}
    ensures var n := WriteWord(m, h + k, v);
            Mapped(n, h, h + HDR)
            && HdrAt(n, h) == HdrWith(HdrAt(m, h), k, v)
  {
    var n := WriteWord(m, h + k, v);
    WordWritten(m, h + k, v);
    if k != 0 { WordApart(m, n, h + k, h + k + WORD, h); }
    if k != 8 { WordApart(m, n, h + k, h + k + WORD, h + 8); }
    if k != 16 { WordApart(m, n, h + k, h + k + WORD, h + 16); }
    if k != 24 { WordApart(m, n, h + k, h + k + WORD, h + 24); }
    if k != 32 { WordApart(m, n, h + k, h + k + WORD, h + 32); }
  }

  function HdrWith(h: Hdr, k: nat, v: nat): Hdr {
    if k == 0 then h.(base := v)
    else if k == 8 then h.(span := v)
    else if k == 16 then h.(cap := v)
    else if k == 24 then h.(size := v)
    else h.(magic := v)
  }

  // ---------------------------------------------------------------- mapping and unmapping

  function ZeroPages(lo: nat, len: nat): (m: Mem)
    ensures forall x :: x in m <==> lo <= x < lo + len
  {
    if len == 0 then map[] else ZeroPages(lo, len - 1)[lo + len - 1 := 0]
  }

  ghost predicate FreshRange(m: Mem, lo: nat, hi: nat) {
    forall x :: lo <= x < hi ==> x !in m
  }

  /** `n` is `m` with [lo, hi) mapped as well. */
  ghost predicate Grown(m: Mem, n: Mem, lo: nat, hi: nat) {
    && (forall x :: x in n <==> x in m || lo <= x < hi)
    && (forall x :: x in m ==> n[x] == m[x])
  }

  lemma GrownKeeps(m: Mem, n: Mem, lo: nat, hi: nat, blocks: map<nat, Blk>, pending: set<nat>)
    requires Grown(m, n, lo, hi) && BlocksOk(m, blocks, pending)
    ensures KeepsBlocks(m, n, blocks, {})
  {
    forall p | p in blocks
      ensures SameInside(m, n, blocks[p].lo, blocks[p].hi)
    {
      assert Mapped(m, blocks[p].lo, blocks[p].hi);
    }
  }

  /** The size class of a request: the smallest that holds it. */
  ghost predicate IsClass(n: nat, c: int) {
    if c == -1 then n > ClassSize(NCLASS - 1)
    else 0 <= c < NCLASS && n <= ClassSize(c) && (c > 0 ==> n > ClassSize(c - 1))
  }

  lemma ClassOfSize(c: nat, d: int)
    requires c < NCLASS && IsClass(ClassSize(c), d)
    ensures d == c
  {
    if d == -1 {
      ExpMonotone(c, NCLASS - 1);
    } else if c < d {
      ExpMonotone(c, d - 1);
    } else if d < c {
      ExpMonotone(d, c - 1);
    }
  }

  // ---------------------------------------------------------------- one step of the heap each

  /** The head of a free list becomes a live block whose tag is still to be written. */
  lemma Popped(s: State, blocks: map<nat, Blk>, lists: seq<seq<nat>>, c: nat)
    requires Good(s, blocks, lists, {}) && c < NCLASS && s.bins[c] != 0
    ensures lists[c] != [] && s.bins[c] in blocks && Mapped(s.mem, s.bins[c], s.bins[c] + WORD)
    ensures Taken(blocks, blocks[s.bins[c] := blocks[s.bins[c]].(live := true, size := 1)], s.bins[c], c)
    ensures var p := s.bins[c];
            Good(s.(bins := s.bins[c := ReadWord(s.mem, p)]), blocks[p := blocks[p].(live := true, size := 1)],
                 lists[c := lists[c][1..]], {p})
  {
    Open(s, blocks, lists, {});
    var p := s.bins[c];
    assert ListOk(s.mem, p, lists[c], blocks, c);
    assert p in lists[c];
    PoppedLists(s.mem, s.bins, lists, blocks, c);
    RegionKept(s, s.mem, blocks, blocks[p := blocks[p].(live := true, size := 1)]);
    Close(s.(bins := s.bins[c := ReadWord(s.mem, p)]), blocks[p := blocks[p].(live := true, size := 1)], lists[c := lists[c][1..]], {p});
  }

  lemma PoppedLists(m: Mem, bins: seq<nat>, lists: seq<seq<nat>>, blocks: map<nat, Blk>, c: nat)
    requires ListsOk(m, bins, lists, blocks) && c < NCLASS && lists[c] != [] && bins[c] in blocks
    requires Mapped(m, bins[c], bins[c] + WORD)
    ensures var p := bins[c];
            ListsOk(m, bins[c := ReadWord(m, p)], lists[c := lists[c][1..]], blocks[p := blocks[p].(live := true, size := 1)])
  {
    var p := bins[c];
    var blocks' := blocks[p := blocks[p].(live := true, size := 1)];
    assert ListOk(m, p, lists[c], blocks, c);
    TailOnly(lists[c]);
    assert ListOk(m, ReadWord(m, p), lists[c][1..], blocks', c);
    forall d | 0 <= d < NCLASS && d != c
      ensures ListOk(m, bins[d], lists[d], blocks', d)
    {
      assert ListOk(m, bins[d], lists[d], blocks, d);
      assert p in lists[c];
    }
  }

  lemma TailOnly(l: seq<nat>)
    requires l != [] && NoDup(l)
    ensures NoDup(l[1..]) && forall p :: p in l[1..] <==> p in l && p != l[0]
  {
    forall i, j | 0 <= i < j < |l[1..]|
      ensures l[1..][i] != l[1..][j]
    {
      assert l[1..][i] == l[i + 1] && l[1..][j] == l[j + 1];
    }
    forall p | p in l && p != l[0]
      ensures p in l[1..]
    {
      var i :| 0 <= i < |l| && l[i] == p;
      assert l[1..][i - 1] == p;
    }
  }

  lemma Consed(p: nat, l: seq<nat>)
    requires NoDup(l) && p !in l
    ensures NoDup([p] + l) && ([p] + l)[1..] == l
  {
  }

  /** A live slab block goes to the head of its class's free list. */
  lemma Pushed(s: State, t: State, blocks: map<nat, Blk>, lists: seq<seq<nat>>, p: nat, c: nat)
    requires Good(s, blocks, lists, {}) && p in blocks && blocks[p].live && blocks[p].cls == c < NCLASS
    requires |s.bins| == NCLASS && t == s.(mem := t.mem, bins := s.bins[c := p])
    requires SameOutside(s.mem, t.mem, blocks[p].lo, blocks[p].hi)
    requires BlockOk(t.mem, p, blocks[p].(live := false)) && Mapped(t.mem, p, p + WORD) && ReadWord(t.mem, p) == s.bins[c]
    requires |lists| == NCLASS
    ensures Good(t, blocks[p := blocks[p].(live := false)], lists[c := [p] + lists[c]], {})
    ensures Freed(s.mem, blocks, t.mem, blocks[p := blocks[p].(live := false)], p)
  {
    Open(s, blocks, lists, {});
    var blocks' := blocks[p := blocks[p].(live := false)];
    ApartKept(s.mem, t.mem, blocks, {}, p);
    ListsKept(s.mem, t.mem, s.bins, lists, blocks, {}, {p});
    BlocksKept(s.mem, t.mem, blocks, {}, {p});
    RegionKept(s, t.mem, blocks, blocks');
    PushedLists(t.mem, s.bins, lists, blocks, p, c);
    Close(t, blocks', lists[c := [p] + lists[c]], {});
  }

  lemma PushedLists(n: Mem, bins: seq<nat>, lists: seq<seq<nat>>, blocks: map<nat, Blk>, p: nat, c: nat)
    requires ListsOk(n, bins, lists, blocks) && p in blocks && blocks[p].live && blocks[p].cls == c < NCLASS && p != 0
    requires Mapped(n, p, p + WORD) && ReadWord(n, p) == bins[c]
    ensures ListsOk(n, bins[c := p], lists[c := [p] + lists[c]], blocks[p := blocks[p].(live := false)])
  {
    var bins', lists', blocks' := bins[c := p], lists[c := [p] + lists[c]], blocks[p := blocks[p].(live := false)];
    forall d | 0 <= d < NCLASS
      ensures ListOk(n, bins'[d], lists'[d], blocks', d)
    {
      assert ListOk(n, bins[d], lists[d], blocks, d);
      if d == c {
        Consed(p, lists[c]);
      }
    }
  }

  ghost predicate Shrunk(m: Mem, n: Mem, lo: nat, hi: nat) {
    && (forall x :: x in n <==> x in m && !(lo <= x < hi))
    && (forall x :: x in n ==> n[x] == m[x])
  }

  lemma ShrunkThrough(l: Mem, m: Mem, n: Mem, lo: nat, hi: nat, h: nat)
    requires SameOutside(l, m, h, h + HDR) && Shrunk(m, n, lo, hi) && lo <= h && h + HDR <= hi
    ensures Shrunk(l, n, lo, hi)
  {
  }

  lemma RangeLeft(m: Mem, n: Mem, lo: nat, hi: nat, a: nat, b: nat)
    requires Mapped(m, a, b) && Shrunk(m, n, lo, hi) && (b <= lo || hi <= a)
    ensures SameInside(m, n, a, b)
  {
  }

  lemma BlockMapped(m: Mem, blocks: map<nat, Blk>, q: nat)
    requires BlocksOk(m, blocks, {}) && q in blocks
    ensures Mapped(m, blocks[q].lo, blocks[q].hi)
  {
  }

  lemma ShrunkKeeps(m: Mem, n: Mem, blocks: map<nat, Blk>, p: nat)
    requires BlocksOk(m, blocks, {}) && AllApart(blocks) && p in blocks && Shrunk(m, n, blocks[p].lo, blocks[p].hi)
    ensures KeepsBlocks(m, n, blocks, {p})
  {
    forall q | q in blocks && q != p
      ensures SameInside(m, n, blocks[q].lo, blocks[q].hi)
    {
      BlockMapped(m, blocks, q);
      assert Apart(blocks[q], blocks[p].lo, blocks[p].hi);
      RangeLeft(m, n, blocks[p].lo, blocks[p].hi, blocks[q].lo, blocks[q].hi);
    }
  }

  lemma ShrunkRegion(s: State, n: Mem, blocks: map<nat, Blk>, p: nat)
    requires RegionOk(s.mem, s.slabBase, s.slabOff, s.slabEnd, blocks) && p in blocks && blocks[p].lo < blocks[p].hi
    requires Shrunk(s.mem, n, blocks[p].lo, blocks[p].hi)
    ensures RegionOk(n, s.slabBase, s.slabOff, s.slabEnd, blocks - {p})
  {
    if s.slabOff < s.slabEnd {
      assert Apart(blocks[p], s.slabBase + s.slabOff, s.slabBase + s.slabEnd);
    }
  }

  /** The mapping of a block of its own goes away with the block. */
  lemma Unmapped(s: State, t: State, blocks: map<nat, Blk>, lists: seq<seq<nat>>, p: nat)
    requires Good(s, blocks, lists, {}) && p in blocks && blocks[p].live && blocks[p].cls >= NCLASS
    requires t == s.(mem := t.mem) && Shrunk(s.mem, t.mem, blocks[p].lo, blocks[p].hi)
    ensures Good(t, blocks - {p}, lists, {})
    ensures Freed(s.mem, blocks, t.mem, blocks - {p}, p)
  {
    Open(s, blocks, lists, {});
    ShrunkKeeps(s.mem, t.mem, blocks, p);
    ListsKept(s.mem, t.mem, s.bins, lists, blocks, {}, {p});
    BlocksKept(s.mem, t.mem, blocks, {}, {p});
    forall d | 0 <= d < NCLASS
      ensures ListOk(t.mem, s.bins[d], lists[d], blocks - {p}, d)
    {
      assert ListOk(t.mem, s.bins[d], lists[d], blocks, d);
    }
    ShrunkRegion(s, t.mem, blocks, p);
    Close(t, blocks - {p}, lists, {});
  }

  /** A new block whose addresses no block had. */
  lemma Added(s: State, n: Mem, blocks: map<nat, Blk>, lists: seq<seq<nat>>, p: nat, b: Blk, off: nat, pending: set<nat>)
    requires Good(s, blocks, lists, {}) && p !in blocks && b.live && pending <= {p}
    requires KeepsBlocks(s.mem, n, blocks, {})
    requires forall q :: q in blocks ==> Apart(blocks[q], b.lo, b.hi)
    requires ShapeOk(p, b) && Mapped(n, b.lo, b.hi) && Fixed(n, p, b) && (p !in pending ==> Tagged(n, p, b))
    requires RegionOk(n, s.slabBase, off, s.slabEnd, blocks[p := b])
    ensures Good(s.(mem := n, slabOff := off), blocks[p := b], lists, pending)
  {
    Open(s, blocks, lists, {});
    ListsKept(s.mem, n, s.bins, lists, blocks, {}, {});
    BlocksKept(s.mem, n, blocks, {}, {});
    forall d | 0 <= d < NCLASS
      ensures ListOk(n, s.bins[d], lists[d], blocks[p := b], d)
    {
      assert ListOk(n, s.bins[d], lists[d], blocks, d);
    }
    Close(s.(mem := n, slabOff := off), blocks[p := b], lists, pending);
  }

  /** Mapping more memory and starting a fresh slab in it. */
  lemma NewSlab(s: State, t: State, blocks: map<nat, Blk>, lists: seq<seq<nat>>)
    requires Good(s, blocks, lists, {}) && t.slabBase > 0 && t.slabBase % PAGE == 0 && t.slabBase + SLAB <= TOP
    requires t == State(t.mem, s.bins, t.slabBase, 0, SLAB)
    requires FreshRange(s.mem, t.slabBase, t.slabBase + SLAB) && Grown(s.mem, t.mem, t.slabBase, t.slabBase + SLAB)
    ensures Good(t, blocks, lists, {})
    ensures KeepsBlocks(s.mem, t.mem, blocks, {})
  {
    Open(s, blocks, lists, {});
    GrownKeeps(s.mem, t.mem, t.slabBase, t.slabBase + SLAB, blocks, {});
    ListsKept(s.mem, t.mem, s.bins, lists, blocks, {}, {});
    BlocksKept(s.mem, t.mem, blocks, {}, {});
    FreshApart(s.mem, blocks, t.slabBase, t.slabBase + SLAB);
    PageAligned(t.slabBase);
    Close(t, blocks, lists, {});
  }

  lemma PageAligned(r: nat)
    requires r % PAGE == 0
    ensures Aligned(r) && Aligned(0)
  {
    assert r == PAGE * (r / PAGE);
    assert r == 16 * (256 * (r / PAGE));
  }

  lemma FreshApart(m: Mem, blocks: map<nat, Blk>, lo: nat, hi: nat)
    requires BlocksOk(m, blocks, {}) && FreshRange(m, lo, hi) && lo < hi
    ensures forall q :: q in blocks ==> Apart(blocks[q], lo, hi)
  {
    forall q | q in blocks
      ensures Apart(blocks[q], lo, hi)
    {
      var b := blocks[q];
      assert Mapped(m, b.lo, b.hi);
      var x := if b.lo < lo then lo else b.lo;
      assert b.lo <= x < b.hi ==> x in m;
      assert lo <= x < hi ==> x !in m;
    }
  }

  // ---------------------------------------------------------------- the allocator

  /** The same addresses and class; only the tag may differ. */
  predicate SamePlace(a: Blk, b: Blk) {
    b == a.(live := b.live, size := b.size)
  }

  /** What an allocation leaves: nothing, or one more live block, aligned and large enough, whose address no
      live block had. Every block that was live keeps its bytes. */
  ghost predicate Allocated(m: Mem, blocks: map<nat, Blk>, n: Mem, after: map<nat, Blk>, p: nat, size: nat, align: nat) {
    && KeepsLive(m, n, blocks)
    && (p == 0 ==> after == blocks)
    && (p != 0 ==>
          && p in after && after == blocks[p := after[p]]
          && (p in blocks ==> !blocks[p].live && SamePlace(blocks[p], after[p]))
          && after[p].live && after[p].size == size <= after[p].cap
          && align > 0 && p % align == 0)
  }

  /** One request for a mapping, with the kernel's answer: an address, or 0 when it refuses. */
  datatype Ask = Ask(len: nat, addr: nat)

  predicate FreeIn(blocks: map<nat, Blk>, p: nat, c: nat) {
    p in blocks && !blocks[p].live && blocks[p].cls == c
  }

  /** A block that was not there before, of class `c`. */
  predicate NewIn(blocks: map<nat, Blk>, after: map<nat, Blk>, p: nat, c: nat) {
    p != 0 && p !in blocks && p in after && after[p].cls == c
  }

  /** The kernel was asked once more, for `len` bytes; there is a block exactly if it did not refuse. */
  predicate AskedOnce(was: seq<Ask>, now: seq<Ask>, len: nat, p: nat) {
    |now| == |was| + 1 && now[..|was|] == was && now[|was|].len == len && (p == 0 <==> now[|was|].addr == 0)
  }

  /** The answer to a request that class `c` holds: a free block of the class if there is one, else a new one if the slab
      has room, and only else is the kernel asked for a slab. */
  ghost predicate AnsweredSmall(s: State, blocks: map<nat, Blk>, after: map<nat, Blk>, c: nat, p: nat, was: seq<Ask>, now: seq<Ask>)
    requires c < NCLASS
  {
    if exists q :: FreeIn(blocks, q, c) then FreeIn(blocks, p, c) && p != 0 && now == was
    else if s.slabOff + 48 + ClassSize(c) <= s.slabEnd then NewIn(blocks, after, p, c) && now == was
    else AskedOnce(was, now, 1024 * 1024, p) && (p != 0 ==> NewIn(blocks, after, p, c))
  }

  /** The answer to any other request: a mapping of its own, unless its length does not fit in 64 bits. */
  predicate AnsweredOwn(blocks: map<nat, Blk>, after: map<nat, Blk>, n: nat, align: nat, p: nat, was: seq<Ask>, now: seq<Ask>) {
    var span := n + 48 + align;
    if span >= U64 then p == 0 && now == was
    else AskedOnce(was, now, span, p)
         && (p != 0 ==> NewIn(blocks, after, p, NCLASS) && after[p].lo == now[|was|].addr && after[p].hi == after[p].lo + span)
  }

  /** When a request for `n` bytes is granted, and from where. */
  ghost predicate Answered(s: State, blocks: map<nat, Blk>, after: map<nat, Blk>, n: nat, align: nat, p: nat, was: seq<Ask>, now: seq<Ask>) {
    if !IsPow2(align) then p == 0 && now == was
    else
      forall c: int :: IsClass(n, c) ==>
        if align <= 16 && c >= 0 then AnsweredSmall(s, blocks, after, c, p, was, now)
        else AnsweredOwn(blocks, after, n, align, p, was, now)
  }

  /** A mapping of its own goes back to the kernel; everything else stays mapped. */
  ghost predicate Returned(m: Mem, n: Mem, b: Blk) {
    forall x :: x in n <==> x in m && !(b.cls >= NCLASS && b.lo <= x < b.hi)
  }

  function WithoutBlock(blocks: map<nat, Blk>, p: nat): map<nat, Blk>
    requires p in blocks
  {
    if blocks[p].cls < NCLASS then blocks[p := blocks[p].(live := false)] else blocks - {p}
  }

  ghost predicate Freed(m: Mem, blocks: map<nat, Blk>, n: Mem, after: map<nat, Blk>, p: nat) {
    if p in blocks && blocks[p].live
    then after == WithoutBlock(blocks, p) && KeepsBlocks(m, n, blocks, {p}) && Returned(m, n, blocks[p])
    else n == m && after == blocks
  }

  function Requested(n: nat): nat {
    if n == 0 then 1 else n
  }

  function AtLeast16(align: nat): nat {
    if align < 16 then 16 else align
  }

  ghost predicate ResizedInPlace(m: Mem, blocks: map<nat, Blk>, n: Mem, after: map<nat, Blk>, p: nat, size: nat)
    requires p in blocks
  {
    && after == blocks[p := blocks[p].(size := size)]
    && KeepsBlocks(m, n, blocks, {p})
    && SameInside(m, n, p, p + blocks[p].cap)
  }

  /** Nothing happened, or `q` is a new block that starts with the bytes of `p`, and `p` is free. All other live
      blocks keep their bytes either way, and so does `p` when nothing happened. */
  ghost predicate Moved(m: Mem, blocks: map<nat, Blk>, n: Mem, after: map<nat, Blk>, p: nat, q: nat, size: nat)
    requires p in blocks
  {
    if q == 0 then after == blocks && KeepsLive(m, n, blocks)
    else
      && q != p && q in after && (q in blocks ==> !blocks[q].live && SamePlace(blocks[q], after[q]))
      && after[q].live && after[q].size == size <= after[q].cap && Aligned(q)
      && after == WithoutBlock(blocks[q := after[q]], p)
      && (forall r :: r in blocks && blocks[r].live && r != p ==> SameInside(m, n, blocks[r].lo, blocks[r].hi))
      && Mapped(m, p, p + blocks[p].size) && Mapped(n, q, q + blocks[p].size)
      && Data(n, q, blocks[p].size) == Data(m, p, blocks[p].size)
      && (blocks[p].cls >= NCLASS ==> forall x :: blocks[p].lo <= x < blocks[p].hi ==> x !in n)
  }

  ghost predicate Taken(before: map<nat, Blk>, after: map<nat, Blk>, p: nat, c: nat) {
    && p in after && after == before[p := after[p]]
    && (p in before ==> !before[p].live && SamePlace(before[p], after[p]))
    && after[p].live && after[p].cls == c && p != 0
  }

  class Heap {
    var mem: Mem
    var bins: seq<nat>
    var slabBase: nat
    var slabOff: nat
    var slabEnd: nat
    ghost var blocks: map<nat, Blk>
    ghost var lists: seq<seq<nat>>
    ghost var asked: seq<Ask>

    function Now(): State
      reads this
    {
      State(mem, bins, slabBase, slabOff, slabEnd)
    }

    ghost predicate Valid()
      reads this
    {
      Good(Now(), blocks, lists, {})
    }

    /** Memory as the program starts: whatever is mapped belongs to someone else. */
    constructor (initial: Mem)
      ensures Valid() && blocks == map[] && mem == initial && asked == []
    {
      mem := initial;
      bins := seq(NCLASS, i => 0);
      slabBase, slabOff, slabEnd := 0, 0, 0;
      blocks, asked := map[], [];
      lists := seq(NCLASS, i => []);
      new;
      Close(Now(), blocks, lists, {});
    }

    method MmapAnon(len: nat) returns (r: nat)
      requires len > 0
      modifies this`mem, this`asked
      ensures asked == old(asked) + [Ask(len, r)]
      ensures r == 0 ==> mem == old(mem)
      ensures r != 0 ==> r % PAGE == 0 && r + len <= TOP && FreshRange(old(mem), r, r + len) && Grown(old(mem), mem, r, r + len)
    {
      r := *;
      if r % PAGE != 0 || r + len > TOP || exists x :: r <= x < r + len && x in mem {
        r := 0;
      }
      if r != 0 {
        var m := mem;
        mem := m + ZeroPages(r, len);
      }
      asked := asked + [Ask(len, r)];
    }

    static method MunmapSys(m: Mem, addr: nat, len: nat) returns (n: Mem)
      ensures Shrunk(m, n, addr, addr + len)
    {
      n := map x | x in m && !(addr <= x < addr + len) :: m[x];
    }

    method ClassFor(n: nat) returns (c: int)
      ensures IsClass(n, c)
    {
      for i := 0 to NCLASS
        invariant i > 0 ==> n > ClassSize(i - 1)
      {
        ClassTable(i);
        if n <= CLASS[i] {
          return i;
        }
      }
      return -1;
    }

    method Dedicated(n: u64, align: u64) returns (p: nat)
      requires Valid() && n > 0 && IsPow2(align) && align >= 16
      modifies this
      ensures Valid()
      ensures Allocated(old(mem), old(blocks), mem, blocks, p, n, align)
      ensures AnsweredOwn(old(blocks), blocks, n, align, p, old(asked), asked)
    {
      NothingAllocated(Now(), blocks, lists, n, align);
      if n > U64 - 1 - HDR - align {
        return 0;
      }
      var span := n + HDR + align;
      var base := MmapAnon(span);
      if base == 0 {
        return 0;
      }
      p := AlignUp(base + HDR, align);
      assert p + n < base + span;
      Pow2Multiple(align);
      MultipleOfMultiple(p, align, 16);
      ghost var mapped := mem;
      mem := WriteOwnHeader(mem, p - HDR, base, span, span - (p - base), n);
      OwnMapping(old(Now()), mapped, mem, blocks, lists, base, span, p, n, align);
      blocks := blocks[p := Blk(base, base + span, base, span, span - (p - base), NCLASS, true, n)];
    }

    /** A block whose header names its class and whose tag is still to be written. */
    method SlabNew(c: nat) returns (p: nat)
      requires Valid() && c < NCLASS
      modifies this
      ensures p == 0 ==> Valid() && blocks == old(blocks)
      ensures p != 0 ==> Taken(old(blocks), blocks, p, c) && Good(Now(), blocks, lists, {p})
      ensures KeepsLive(old(mem), mem, old(blocks))
      ensures AnsweredSmall(old(Now()), old(blocks), blocks, c, p, old(asked), asked)
    {
      SelfKept(Now(), blocks, lists);
      EmptyBin(Now(), blocks, lists, c);
      if bins[c] != 0 {
        p := bins[c];
        Popped(Now(), blocks, lists, c);
        bins := bins[c := ReadWord(mem, p)];
        blocks := blocks[p := blocks[p].(live := true, size := 1)];
        lists := lists[c := lists[c][1..]];
        return;
      }
      var stride := HDR + ClassSize(c);
      if slabOff + stride > slabEnd {
        var r := MmapAnon(SLAB);
        if r == 0 {
          return 0;
        }
        slabBase, slabOff, slabEnd := r, 0, SLAB;
        NewSlab(old(Now()), Now(), blocks, lists);
        KeepsFewer(old(mem), mem, blocks, {}, set q | q in blocks && !blocks[q].live);
      }
      ghost var m := mem;
      p := Carve(c);
      KeepsThen(old(mem), m, mem, old(blocks), old(blocks), set q | q in old(blocks) && !old(blocks)[q].live, {});
    }

    method Carve(c: nat) returns (p: nat)
      requires Valid() && c < NCLASS && slabOff + HDR + ClassSize(c) <= slabEnd
      modifies this
      ensures Taken(old(blocks), blocks, p, c) && p !in old(blocks) && asked == old(asked)
      ensures Good(Now(), blocks, lists, {p})
      ensures KeepsBlocks(old(mem), mem, old(blocks), {})
    {
      ghost var before := Now();
      RegionMapped(before, blocks, lists, c);
      p := slabBase + slabOff + HDR;
      slabOff := slabOff + (HDR + ClassSize(c));
      mem := WriteSlabHeader(mem, p - HDR, slabBase, ClassSize(c));
      ghost var b := Blk(p - HDR, p + ClassSize(c), slabBase, 0, ClassSize(c), c, true, 1);
      Carved(before, Now(), blocks, lists, c, p, b);
      blocks := blocks[p := b];
    }

    method AllocUnlocked(n0: u64, align0: u64) returns (p: nat)
      requires Valid()
      modifies this
      ensures Valid()
      ensures Allocated(old(mem), old(blocks), mem, blocks, p, Requested(n0), AtLeast16(align0))
      ensures Answered(old(Now()), old(blocks), blocks, Requested(n0), AtLeast16(align0), p, old(asked), asked)
    {
      var n, align := if n0 == 0 then 1 else n0, if align0 < 16 then 16 else align0;
      NothingAllocated(Now(), blocks, lists, n, align);
      if !IsPow2(align) {
        return 0;
      }
      if align <= 16 {
        var c := ClassFor(n);
        ClassOnce(n, c);
        if c >= 0 {
          p := AllocSmall(n, c);
          return;
        }
      }
      p := Dedicated(n, align);
    }

    /** Blocks are given back at most once: a block that is already free, or no block, is left alone. */
    method FreeUnlocked(p: nat)
      requires Valid() && (p == 0 || p in blocks)
      modifies this
      ensures Valid()
      ensures Freed(old(mem), old(blocks), mem, blocks, p) && asked == old(asked)
    {
      if p == 0 {
        NoBlockAtZero(Now(), blocks, lists);
        return;
      }
      HeaderOf(Now(), blocks, lists, p);
      if ReadWord(mem, p - HDR + 32) != MAGIC {
        return;
      }
      if ReadWord(mem, p - HDR + 8) != 0 {
        FreeOwn(p);
      } else {
        FreeSlab(p);
      }
    }

    method FreeOwn(p: nat)
      requires Valid() && p in blocks && blocks[p].live && blocks[p].cls >= NCLASS
      modifies this
      ensures Valid()
      ensures Freed(old(mem), old(blocks), mem, blocks, p) && asked == old(asked)
    {
      ghost var s, b := Now(), blocks[p];
      HeaderOf(s, blocks, lists, p);
      var base, span := ReadWord(mem, p - HDR), ReadWord(mem, p - HDR + 8);
      var m := WriteMagic(mem, p - HDR, 0);
      var n := MunmapSys(m, base, span);
      ShrunkThrough(s.mem, m, n, b.lo, b.hi, p - HDR);
      Unmapped(s, s.(mem := n), blocks, lists, p);
      mem := n;
      blocks := blocks - {p};
    }

    method FreeSlab(p: nat)
      requires Valid() && p in blocks && blocks[p].live && blocks[p].cls < NCLASS
      modifies this
      ensures Valid()
      ensures Freed(old(mem), old(blocks), mem, blocks, p) && asked == old(asked)
    {
      ghost var s := Now();
      HeaderOf(s, blocks, lists, p);
      var cap := ReadWord(mem, p - HDR + 16);
      var m := WriteMagic(mem, p - HDR, 0);
      var c := ClassFor(cap);
      ClassOfSize(blocks[p].cls, c);
      LinkedBlock(s.mem, m, p, blocks[p], bins[c]);
      m := WriteWord(m, p, bins[c]);
      Pushed(s, s.(mem := m, bins := s.bins[c := p]), blocks, lists, p, c);
      mem := m;
      bins := bins[c := p];
      lists := lists[c := [p] + lists[c]];
      blocks := blocks[p := blocks[p].(live := false)];
    }

    method Malloc(n: u64) returns (p: nat)
      requires Valid()
      modifies this
      ensures Valid()
      ensures Allocated(old(mem), old(blocks), mem, blocks, p, Requested(n), 16)
      ensures Answered(old(Now()), old(blocks), blocks, Requested(n), 16, p, old(asked), asked)
    {
      p := AllocUnlocked(n, 16);
    }

    /** As malloc for the product, with the bytes cleared; nothing when the product does not fit in 64 bits. */
    method Calloc(nm: u64, sz: u64) returns (p: nat)
      requires Valid()
      modifies this
      ensures Valid()
      ensures nm * sz >= U64 ==> p == 0 && mem == old(mem) && blocks == old(blocks) && asked == old(asked)
      ensures nm * sz < U64 ==> Answered(old(Now()), old(blocks), blocks, Requested(nm * sz), 16, p, old(asked), asked)
      ensures Allocated(old(mem), old(blocks), mem, blocks, p, Requested(nm * sz), 16)
      ensures p != 0 ==> Mapped(mem, p, p + Requested(nm * sz)) && forall x :: p <= x < p + Requested(nm * sz) ==> mem[x] == 0
    {
      ProductFits(nm, sz);
      NothingAllocated(Now(), blocks, lists, Requested(nm * sz), 16);
      if nm != 0 && sz > (U64 - 1) / nm {
        return 0;
      }
      var n := nm * sz;
      p := AllocUnlocked(n, 16);
      if p != 0 {
        ghost var s := Now();
        UserBytes(s, blocks, lists, p);
        var m := Zero(mem, p, Requested(n));
        UserWrite(s, s.(mem := m), blocks, lists, p);
        StillAllocated(old(mem), old(blocks), s.mem, m, blocks, p, Requested(n), 16);
        mem := m;
      }
    }

    method Free(p: nat)
      requires Valid() && (p == 0 || p in blocks)
      modifies this
      ensures Valid()
      ensures Freed(old(mem), old(blocks), mem, blocks, p) && asked == old(asked)
    {
      FreeUnlocked(p);
    }

    method AlignedAlloc(align: u64, n: u64) returns (p: nat)
      requires Valid()
      modifies this
      ensures Valid()
      ensures Allocated(old(mem), old(blocks), mem, blocks, p, Requested(n), AtLeast16(align))
      ensures Answered(old(Now()), old(blocks), blocks, Requested(n), AtLeast16(align), p, old(asked), asked)
    {
      p := AllocUnlocked(n, if align != 0 then align else 16);
    }

    /** 22 for an alignment below a pointer's size or not a power of two, 12 when there is no memory. */
    method PosixMemalign(align: u64, n: u64) returns (code: nat, p: nat)
      requires Valid()
      modifies this
      ensures Valid()
      ensures code in {0, 12, 22}
      ensures code == 22 <==> align < 8 || !IsPow2(align)
      ensures code == 22 ==> mem == old(mem) && asked == old(asked)
      ensures code == 0 <==> p != 0
      ensures code != 22 ==> Answered(old(Now()), old(blocks), blocks, Requested(n), AtLeast16(align), p, old(asked), asked)
      ensures Allocated(old(mem), old(blocks), mem, blocks, p, Requested(n), AtLeast16(align))
    {
      NothingAllocated(Now(), blocks, lists, Requested(n), AtLeast16(align));
      if align < 8 || !IsPow2(align) {
        return 22, 0;
      }
      p := AllocUnlocked(n, align);
      code := if p == 0 then 12 else 0;
    }

    /** In place while the capacity lasts; otherwise a new block with the old bytes, after which the old one is
        free. A failed allocation, a zero size and a pointer that is not live are the remaining cases. */
    method Realloc(p: nat, n: u64) returns (q: nat)
      requires Valid() && (p == 0 || p in blocks)
      modifies this
      ensures Valid()
      ensures p == 0 ==> Allocated(old(mem), old(blocks), mem, blocks, q, Requested(n), 16)
                         && Answered(old(Now()), old(blocks), blocks, Requested(n), 16, q, old(asked), asked)
      ensures p != 0 && n == 0 ==> q == 0 && Freed(old(mem), old(blocks), mem, blocks, p) && asked == old(asked)
      ensures p != 0 && n != 0 && !old(blocks)[p].live ==> q == 0 && mem == old(mem) && blocks == old(blocks) && asked == old(asked)
      ensures p != 0 && n != 0 && old(blocks)[p].live && n <= old(blocks)[p].cap ==>
                q == p && ResizedInPlace(old(mem), old(blocks), mem, blocks, p, n) && asked == old(asked)
      ensures p != 0 && n != 0 && old(blocks)[p].live && n > old(blocks)[p].cap ==>
                Moved(old(mem), old(blocks), mem, blocks, p, q, n)
                && Answered(old(Now()), old(blocks), blocks, n, 16, q, old(asked), asked)
    {
      if p == 0 {
        q := Malloc(n);
        return;
      }
      if n == 0 {
        Free(p);
        return 0;
      }
      HeaderOf(Now(), blocks, lists, p);
      if ReadWord(mem, p - HDR + 32) != MAGIC {
        return 0;
      }
      if n <= ReadWord(mem, p - HDR + 16) {
        ResizeInPlace(p, n);
        return p;
      }
      q := MoveTo(p, n);
    }

    method ResizeInPlace(p: nat, n: u64)
      requires Valid() && p in blocks && blocks[p].live && 1 <= n <= blocks[p].cap
      modifies this
      ensures Valid()
      ensures ResizedInPlace(old(mem), old(blocks), mem, blocks, p, n) && asked == old(asked)
    {
      ghost var s := Now();
      HeaderOf(s, blocks, lists, p);
      var m := WriteSize(mem, p - HDR, n);
      SizeChanged(s, s.(mem := m), blocks, lists, p, n);
      mem := m;
      blocks := blocks[p := blocks[p].(size := n)];
    }

    method MoveTo(p: nat, n: u64) returns (q: nat)
      requires Valid() && p in blocks && blocks[p].live && n > blocks[p].cap
      modifies this
      ensures Valid()
      ensures Moved(old(mem), old(blocks), mem, blocks, p, q, n)
      ensures Answered(old(Now()), old(blocks), blocks, n, 16, q, old(asked), asked)
    {
      ghost var s0, b0 := Now(), blocks;
      HeaderOf(s0, blocks, lists, p);
      var was := ReadWord(mem, p - HDR + 24);
      q := AllocUnlocked(n, 16);
      if q == 0 {
        NotMoved(s0.mem, b0, mem, p, n);
        return;
      }
      ghost var s1, b1 := Now(), blocks;
      MoveTarget(s0, s1, b0, b1, lists, p, q, n);
      var m := Copy(mem, q, p, if was < n then was else n);
      UserWrite(s1, s1.(mem := m), b1, lists, q);
      mem := m;
      FreeUnlocked(p);
      MoveDone(s0.mem, s1.mem, m, mem, b0, b1, blocks, p, q, n);
      AnsweredStill(s0, b0, b1, blocks, n, q, old(asked), asked);
    }

    /** A client stores a byte inside a live block. */
    method Store(p: nat, i: nat, v: byte)
      requires Valid() && p in blocks && blocks[p].live && i < blocks[p].size
      modifies this`mem
      ensures Valid() && mem == old(mem)[p + i := v]
      ensures KeepsBlocks(old(mem), mem, blocks, {p})
    {
      ghost var s := Now();
      UserBytes(s, blocks, lists, p);
      var m := mem[p + i := v];
      UserWrite(s, s.(mem := m), blocks, lists, p);
      mem := m;
    }

    method AllocSmall(n: u64, c: nat) returns (p: nat)
      requires Valid() && c < NCLASS && 1 <= n <= ClassSize(c)
      modifies this
      ensures Valid()
      ensures Allocated(old(mem), old(blocks), mem, blocks, p, n, 16)
      ensures AnsweredSmall(old(Now()), old(blocks), blocks, c, p, old(asked), asked)
    {
      p := SlabNew(c);
      if p == 0 {
        return 0;
      }
      ghost var before, taken := Now(), blocks;
      PendingBlock(before, blocks, lists, p);
      mem := WriteTag(mem, p - HDR, n, MAGIC);
      Handed(before, mem, blocks, lists, p, n);
      blocks := blocks[p := blocks[p].(size := n)];
      HandedOver(old(mem), before.mem, mem, old(blocks), taken, p, c, n);
    }
  }

  lemma HandedOver(l: Mem, m: Mem, n: Mem, blocks: map<nat, Blk>, taken: map<nat, Blk>, p: nat, c: nat, size: nat)
    requires KeepsLive(l, m, blocks) && Taken(blocks, taken, p, c) && KeepsBlocks(m, n, taken, {p})
    requires ShapeOk(p, taken[p]) && c < NCLASS && size <= ClassSize(c)
    ensures Allocated(l, blocks, n, taken[p := taken[p].(size := size)], p, size, 16)
  {
    KeepsThen(l, m, n, blocks, taken, set q | q in blocks && !blocks[q].live, {p});
  }

  /** The answer does not depend on what becomes of other blocks afterwards. */
  lemma AnsweredStill(s: State, blocks: map<nat, Blk>, b1: map<nat, Blk>, b3: map<nat, Blk>, n: nat, q: nat, was: seq<Ask>, now: seq<Ask>)
    requires Answered(s, blocks, b1, n, 16, q, was, now) && (q in b1 ==> q in b3 && b3[q] == b1[q])
    ensures Answered(s, blocks, b3, n, 16, q, was, now)
  {
    if IsPow2(16) {
      forall c: int | IsClass(n, c)
        ensures if c >= 0 then AnsweredSmall(s, blocks, b3, c, q, was, now) else AnsweredOwn(blocks, b3, n, 16, q, was, now)
      {
      }
    }
  }

  lemma ClassOnce(n: nat, c: int)
    requires IsClass(n, c)
    ensures forall d: int :: IsClass(n, d) ==> d == c
  {
    forall d: int | IsClass(n, d)
      ensures d == c
    {
      if 0 <= c < d {
        ExpMonotone(c, d - 1);
      } else if 0 <= d < c {
        ExpMonotone(d, c - 1);
      } else if c == -1 != d {
        ExpMonotone(d, NCLASS - 1);
      } else if d == -1 != c {
        ExpMonotone(c, NCLASS - 1);
      }
    }
  }

  /** A bin is empty exactly when no block of its class is free. */
  lemma EmptyBin(s: State, blocks: map<nat, Blk>, lists: seq<seq<nat>>, c: nat)
    requires Good(s, blocks, lists, {}) && c < NCLASS
    ensures s.bins[c] == 0 <==> !exists q :: FreeIn(blocks, q, c)
  {
    Open(s, blocks, lists, {});
    assert ListOk(s.mem, s.bins[c], lists[c], blocks, c);
    if s.bins[c] != 0 {
      assert s.bins[c] in lists[c] && FreeIn(blocks, s.bins[c], c);
    }
  }

  // ---------------------------------------------------------------- headers the class writes

  lemma SelfKept(s: State, blocks: map<nat, Blk>, lists: seq<seq<nat>>)
    requires Good(s, blocks, lists, {})
    ensures KeepsLive(s.mem, s.mem, blocks)
  {
    Open(s, blocks, lists, {});
    var m := s.mem;
    forall p | p in blocks && blocks[p].live
      ensures SameInside(m, m, blocks[p].lo, blocks[p].hi)
    {
      assert Mapped(m, blocks[p].lo, blocks[p].hi);
    }
  }

  /** `n` is `m` but for the header at `h`, which reads as `hdr`. */
  ghost predicate Wrote(m: Mem, n: Mem, h: nat, hdr: Hdr) {
    SameOutside(m, n, h, h + HDR) && Mapped(n, h, h + HDR) && HdrAt(n, h) == hdr
  }

  method WriteField(m: Mem, h: nat, k: nat, v: u64) returns (n: Mem)
    requires Mapped(m, h, h + HDR) && k in {0, 8, 16, 24, 32}
    ensures Wrote(m, n, h, HdrWith(HdrAt(m, h), k, v))
  {
    SetWord(m, h, k, v);
    n := WriteWord(m, h + k, v);
  }

  lemma OutsideTwice(l: Mem, m: Mem, n: Mem, lo: nat, hi: nat)
    requires SameOutside(l, m, lo, hi) && SameOutside(m, n, lo, hi)
    ensures SameOutside(l, n, lo, hi)
  {
  }

  method WriteSlabHeader(m: Mem, h: nat, base: u64, cap: u64) returns (n: Mem)
    requires Mapped(m, h, h + HDR)
    ensures Wrote(m, n, h, HdrAt(m, h).(base := base, span := 0, cap := cap, magic := MAGIC))
  {
    n := WriteFirst(m, h, base, 0, cap);
    ghost var first := n;
    n := WriteField(n, h, 32, MAGIC);
    OutsideTwice(m, first, n, h, h + HDR);
  }

  method WriteFirst(m: Mem, h: nat, base: u64, span: u64, cap: u64) returns (n: Mem)
    requires Mapped(m, h, h + HDR)
    ensures Wrote(m, n, h, HdrAt(m, h).(base := base, span := span, cap := cap))
  {
    n := WriteField(m, h, 0, base);
    ghost var one := n;
    n := WriteField(n, h, 8, span);
    ghost var two := n;
    n := WriteField(n, h, 16, cap);
    OutsideTwice(m, one, two, h, h + HDR);
    OutsideTwice(m, two, n, h, h + HDR);
  }

  method WriteOwnHeader(m: Mem, h: nat, base: u64, span: u64, cap: u64, size: u64) returns (n: Mem)
    requires Mapped(m, h, h + HDR)
    ensures Wrote(m, n, h, Hdr(base, span, cap, size, MAGIC))
  {
    n := WriteFirst(m, h, base, span, cap);
    ghost var first := n;
    n := WriteTag(n, h, size, MAGIC);
    OutsideTwice(m, first, n, h, h + HDR);
  }

  method WriteTag(m: Mem, h: nat, size: u64, magic: u64) returns (n: Mem)
    requires Mapped(m, h, h + HDR)
    ensures Wrote(m, n, h, HdrAt(m, h).(size := size, magic := magic))
  {
    n := WriteField(m, h, 24, size);
    ghost var first := n;
    n := WriteField(n, h, 32, magic);
    OutsideTwice(m, first, n, h, h + HDR);
  }

  method WriteMagic(m: Mem, h: nat, magic: u64) returns (n: Mem)
    requires Mapped(m, h, h + HDR)
    ensures Wrote(m, n, h, HdrAt(m, h).(magic := magic))
  {
    n := WriteField(m, h, 32, magic);
  }

  lemma NoBlockAtZero(s: State, blocks: map<nat, Blk>, lists: seq<seq<nat>>)
    requires Good(s, blocks, lists, {})
    ensures 0 !in blocks
  {
    Open(s, blocks, lists, {});
    assert 0 in blocks ==> BlockOk(s.mem, 0, blocks[0]);
  }

  lemma HeaderOf(s: State, blocks: map<nat, Blk>, lists: seq<seq<nat>>, p: nat)
    requires Good(s, blocks, lists, {}) && p in blocks
    ensures ShapeOk(p, blocks[p]) && BlockOk(s.mem, p, blocks[p])
    ensures |s.bins| == |lists| == NCLASS && forall c :: 0 <= c < NCLASS ==> s.bins[c] < U64
    ensures Mapped(s.mem, p - HDR, p + blocks[p].cap)
  {
    Open(s, blocks, lists, {});
    forall c | 0 <= c < NCLASS
      ensures s.bins[c] < U64
    {
      assert ListOk(s.mem, s.bins[c], lists[c], blocks, c);
      if lists[c] != [] {
        assert s.bins[c] in lists[c];
        assert BlockOk(s.mem, s.bins[c], blocks[s.bins[c]]);
      }
    }
  }

  /** A block without its tag whose first word is set to the address of another. */
  lemma LinkedBlock(m: Mem, m1: Mem, p: nat, b: Blk, next: u64)
    requires BlockOk(m, p, b) && b.cls < NCLASS && Wrote(m, m1, p - HDR, HdrAt(m, p - HDR).(magic := 0))
    ensures Mapped(m1, p, p + WORD)
    ensures var n := WriteWord(m1, p, next);
            Mapped(n, p, p + WORD) && ReadWord(n, p) == next && SameOutside(m, n, b.lo, b.hi) && BlockOk(n, p, b.(live := false))
  {
    var n := WriteWord(m1, p, next);
    WordWritten(m1, p, next);
    HeaderKept(m1, n, p - HDR);
  }

  lemma PendingBlock(s: State, blocks: map<nat, Blk>, lists: seq<seq<nat>>, p: nat)
    requires Good(s, blocks, lists, {p}) && p in blocks
    ensures ShapeOk(p, blocks[p]) && p >= HDR && Mapped(s.mem, p - HDR, p)
  {
    Open(s, blocks, lists, {p});
  }

  lemma HandedBlock(m: Mem, n: Mem, p: nat, b: Blk, size: nat)
    requires ShapeOk(p, b) && Mapped(m, b.lo, b.hi) && Fixed(m, p, b) && b.live && 1 <= size <= b.cap
    requires Wrote(m, n, p - HDR, HdrAt(m, p - HDR).(size := size, magic := MAGIC))
    ensures BlockOk(n, p, b.(size := size)) && SameOutside(m, n, b.lo, b.hi)
  {
  }

  /** Handing out a block: its size and the magic number. */
  lemma Handed(s: State, n: Mem, blocks: map<nat, Blk>, lists: seq<seq<nat>>, p: nat, size: nat)
    requires Good(s, blocks, lists, {p}) && p in blocks && 1 <= size <= blocks[p].cap
    requires p >= HDR && Mapped(s.mem, p - HDR, p)
    requires Wrote(s.mem, n, p - HDR, HdrAt(s.mem, p - HDR).(size := size, magic := MAGIC))
    ensures Good(s.(mem := n), blocks[p := blocks[p].(size := size)], lists, {}) && KeepsBlocks(s.mem, n, blocks, {p})
  {
    Open(s, blocks, lists, {p});
    HandedBlock(s.mem, n, p, blocks[p], size);
    OneChanged(s, n, blocks, lists, {p}, p, blocks[p].(size := size));
  }

  lemma WritesKeep(m: Mem, n: Mem, blocks: map<nat, Blk>, b: Blk)
    requires BlocksOk(m, blocks, {}) && SameOutside(m, n, b.lo, b.hi)
    requires forall q :: q in blocks ==> Apart(blocks[q], b.lo, b.hi)
    ensures KeepsBlocks(m, n, blocks, {})
  {
    forall q | q in blocks
      ensures SameInside(m, n, blocks[q].lo, blocks[q].hi)
    {
      assert Mapped(m, blocks[q].lo, blocks[q].hi);
    }
  }

  lemma RegionMapped(s: State, blocks: map<nat, Blk>, lists: seq<seq<nat>>, c: nat)
    requires Good(s, blocks, lists, {})
    requires c < NCLASS && s.slabOff + HDR + ClassSize(c) <= s.slabEnd
    ensures Mapped(s.mem, s.slabBase + s.slabOff, s.slabBase + s.slabOff + HDR + ClassSize(c))
    ensures 0 < s.slabBase && s.slabBase + s.slabOff + HDR + ClassSize(c) <= TOP && Aligned(s.slabBase + s.slabOff + HDR)
  {
    Open(s, blocks, lists, {});
    AlignedSum(s.slabBase, s.slabOff);
    AlignedSum(s.slabBase + s.slabOff, HDR);
  }

  lemma CarvedRegion(s: State, n: Mem, blocks: map<nat, Blk>, c: nat, b: Blk)
    requires RegionOk(s.mem, s.slabBase, s.slabOff, s.slabEnd, blocks) && s.mem.Keys <= n.Keys
    requires c < NCLASS && s.slabOff + HDR + ClassSize(c) <= s.slabEnd
    requires b.lo == s.slabBase + s.slabOff && b.hi == b.lo + HDR + ClassSize(c)
    ensures RegionOk(n, s.slabBase, s.slabOff + (HDR + ClassSize(c)), s.slabEnd, blocks[b.lo + HDR := b])
    ensures forall q :: q in blocks ==> Apart(blocks[q], b.lo, b.hi)
  {
    AlignedSum(s.slabOff, HDR);
    AlignedSum(s.slabOff + HDR, ClassSize(c));
  }

  /** A block cut from the front of the slab's unused part. */
  lemma Carved(s: State, t: State, blocks: map<nat, Blk>, lists: seq<seq<nat>>, c: nat, p: nat, b: Blk)
    requires Good(s, blocks, lists, {}) && c < NCLASS && s.slabOff + HDR + ClassSize(c) <= s.slabEnd
    requires t == s.(mem := t.mem, slabOff := s.slabOff + (HDR + ClassSize(c)))
    requires p == s.slabBase + s.slabOff + HDR
    requires b == Blk(p - HDR, p + ClassSize(c), s.slabBase, 0, ClassSize(c), c, true, 1)
    requires SameOutside(s.mem, t.mem, p - HDR, p) && Mapped(t.mem, p - HDR, p)
    requires var hdr := HdrAt(t.mem, p - HDR); hdr.base == s.slabBase && hdr.span == 0 && hdr.cap == ClassSize(c)
    ensures Good(t, blocks[p := b], lists, {p})
    ensures Taken(blocks, blocks[p := b], p, c) && p !in blocks
    ensures KeepsBlocks(s.mem, t.mem, blocks, {})
  {
    Open(s, blocks, lists, {});
    RegionMapped(s, blocks, lists, c);
    CarvedRegion(s, t.mem, blocks, c, b);
    NotInRegion(s, blocks, p);
    WritesKeep(s.mem, t.mem, blocks, b);
    Added(s, t.mem, blocks, lists, p, b, t.slabOff, {p});
  }

  lemma NotInRegion(s: State, blocks: map<nat, Blk>, p: nat)
    requires BlocksOk(s.mem, blocks, {}) && RegionOk(s.mem, s.slabBase, s.slabOff, s.slabEnd, blocks)
    requires s.slabBase + s.slabOff + HDR == p < s.slabBase + s.slabEnd
    ensures p !in blocks
  {
    forall q | q in blocks
      ensures q != p
    {
      assert Apart(blocks[q], s.slabBase + s.slabOff, s.slabBase + s.slabEnd);
      assert ShapeOk(q, blocks[q]);
    }
  }

  /** A block with a mapping of its own. */
  lemma OwnMapping(s: State, m: Mem, n: Mem, blocks: map<nat, Blk>, lists: seq<seq<nat>>, base: nat, span: nat, p: nat, size: nat, align: nat)
    requires Good(s, blocks, lists, {}) && size >= 1 && align > 0 && p % align == 0
    requires 0 < base && base + span <= TOP && base + HDR <= p && p + size <= base + span && Aligned(p)
    requires FreshRange(s.mem, base, base + span) && Grown(s.mem, m, base, base + span)
    requires SameOutside(m, n, p - HDR, p) && Mapped(n, p - HDR, p)
    requires HdrAt(n, p - HDR) == Hdr(base, span, span - (p - base), size, MAGIC)
    ensures var b := Blk(base, base + span, base, span, span - (p - base), NCLASS, true, size);
            p !in blocks && Good(s.(mem := n), blocks[p := b], lists, {}) && Allocated(s.mem, blocks, n, blocks[p := b], p, size, align)
  {
    Open(s, blocks, lists, {});
    var b := Blk(base, base + span, base, span, span - (p - base), NCLASS, true, size);
    FreshApart(s.mem, blocks, base, base + span);
    OwnKeeps(s.mem, m, n, blocks, base, base + span);
    NotFresh(blocks, p, base, base + span) by {
      assert forall q :: q in blocks ==> ShapeOk(q, blocks[q]);
    }
    OwnRegion(s, n, blocks, p, b);
    Added(s, n, blocks, lists, p, b, s.slabOff, {});
    KeepsFewer(s.mem, n, blocks, {}, set q | q in blocks && !blocks[q].live);
  }

  lemma KeepsFewer(m: Mem, n: Mem, blocks: map<nat, Blk>, but: set<nat>, more: set<nat>)
    requires KeepsBlocks(m, n, blocks, but) && but <= more
    ensures KeepsBlocks(m, n, blocks, more)
  {
  }

  lemma KeepsThen(l: Mem, m: Mem, n: Mem, blocks: map<nat, Blk>, after: map<nat, Blk>, but: set<nat>, but': set<nat>)
    requires KeepsBlocks(l, m, blocks, but) && KeepsBlocks(m, n, after, but')
    requires forall p :: p in blocks && p !in but ==> p in after && p !in but' && after[p] == blocks[p]
    ensures KeepsBlocks(l, n, blocks, but)
  {
    forall p | p in blocks && p !in but
      ensures SameInside(l, n, blocks[p].lo, blocks[p].hi)
    {
      assert SameInside(l, m, blocks[p].lo, blocks[p].hi) && SameInside(m, n, after[p].lo, after[p].hi);
    }
  }

  lemma NothingAllocated(s: State, blocks: map<nat, Blk>, lists: seq<seq<nat>>, size: nat, align: nat)
    requires Good(s, blocks, lists, {})
    ensures Allocated(s.mem, blocks, s.mem, blocks, 0, size, align)
  {
    SelfKept(s, blocks, lists);
  }

  lemma NotFresh(blocks: map<nat, Blk>, p: nat, lo: nat, hi: nat)
    requires forall q :: q in blocks ==> ShapeOk(q, blocks[q]) && Apart(blocks[q], lo, hi)
    requires lo + HDR <= p < hi
    ensures p !in blocks
  {
    forall q | q in blocks
      ensures q != p
    {
      assert ShapeOk(q, blocks[q]) && Apart(blocks[q], lo, hi);
    }
  }

  lemma RangeKept(m0: Mem, m: Mem, n: Mem, lo: nat, hi: nat, a: nat, b: nat)
    requires Mapped(m0, a, b) && Grown(m0, m, lo, hi) && SameOutside(m, n, lo, hi) && FreshRange(m0, lo, hi)
    ensures SameInside(m0, n, a, b)
  {
  }

  lemma OwnKeeps(m0: Mem, m: Mem, n: Mem, blocks: map<nat, Blk>, lo: nat, hi: nat)
    requires BlocksOk(m0, blocks, {}) && Grown(m0, m, lo, hi) && SameOutside(m, n, lo, hi) && FreshRange(m0, lo, hi)
    ensures KeepsBlocks(m0, n, blocks, {})
  {
    forall q | q in blocks
      ensures SameInside(m0, n, blocks[q].lo, blocks[q].hi)
    {
      BlockMapped(m0, blocks, q);
      RangeKept(m0, m, n, lo, hi, blocks[q].lo, blocks[q].hi);
    }
  }

  lemma OwnRegion(s: State, n: Mem, blocks: map<nat, Blk>, p: nat, b: Blk)
    requires RegionOk(s.mem, s.slabBase, s.slabOff, s.slabEnd, blocks) && s.mem.Keys <= n.Keys
    requires FreshRange(s.mem, b.lo, b.hi) && b.lo < b.hi
    ensures RegionOk(n, s.slabBase, s.slabOff, s.slabEnd, blocks[p := b])
  {
    var lo, hi := s.slabBase + s.slabOff, s.slabBase + s.slabEnd;
    if s.slabEnd != 0 && lo < hi {
      var x := if b.lo < lo then lo else b.lo;
      assert lo <= x < hi ==> x in s.mem;
      assert b.lo <= x < b.hi ==> x !in s.mem;
    }
  }

  // ---------------------------------------------------------------- bytes of the clients

  method Zero(m: Mem, p: nat, k: nat) returns (n: Mem)
    requires Mapped(m, p, p + k)
    ensures SameOutside(m, n, p, p + k) && Mapped(n, p, p + k)
    ensures forall x :: p <= x < p + k ==> n[x] == 0
  {
    n := m;
    for i := 0 to k
      invariant SameOutside(m, n, p, p + i)
      invariant forall x :: p <= x < p + i ==> n[x] == 0
    {
      n := n[p + i := 0];
    }
  }

  method Copy(m: Mem, dst: nat, src: nat, k: nat) returns (n: Mem)
    requires Mapped(m, dst, dst + k) && Mapped(m, src, src + k) && (dst + k <= src || src + k <= dst)
    ensures SameOutside(m, n, dst, dst + k) && Mapped(n, dst, dst + k)
    ensures Data(n, dst, k) == Data(m, src, k)
  {
    n := m;
    for i := 0 to k
      invariant SameOutside(m, n, dst, dst + i) && Mapped(n, dst, dst + k)
      invariant Data(n, dst, i) == Data(m, src, i)
    {
      ghost var before := n;
      n := n[dst + i := n[src + i]];
      assert Data(n, dst, i + 1) == Data(before, dst, i) + [m[src + i]];
      assert Data(m, src, i + 1) == Data(m, src, i) + [m[src + i]];
    }
  }

  method WriteSize(m: Mem, h: nat, size: u64) returns (n: Mem)
    requires Mapped(m, h, h + HDR)
    ensures SameOutside(m, n, h + 24, h + 32)
    ensures Wrote(m, n, h, HdrAt(m, h).(size := size))
  {
    SetWord(m, h, 24, size);
    n := WriteWord(m, h + 24, size);
  }

  lemma UserBytes(s: State, blocks: map<nat, Blk>, lists: seq<seq<nat>>, p: nat)
    requires Good(s, blocks, lists, {}) && p in blocks && blocks[p].live
    ensures ShapeOk(p, blocks[p]) && Mapped(s.mem, p, p + blocks[p].size)
  {
    Open(s, blocks, lists, {});
    assert BlockOk(s.mem, p, blocks[p]);
  }

  /** Bytes inside a live block are the client's: writing them disturbs nothing. */
  lemma UserWrite(s: State, t: State, blocks: map<nat, Blk>, lists: seq<seq<nat>>, p: nat)
    requires Good(s, blocks, lists, {}) && p in blocks && blocks[p].live
    requires t == s.(mem := t.mem) && SameOutside(s.mem, t.mem, p, p + blocks[p].size)
    ensures Good(t, blocks, lists, {})
    ensures KeepsBlocks(s.mem, t.mem, blocks, {p})
  {
    HeaderOf(s, blocks, lists, p);
    HeaderKept(s.mem, t.mem, p - HDR);
    assert BlockOk(t.mem, p, blocks[p]);
    assert blocks[p := blocks[p]] == blocks;
    OneChanged(s, t.mem, blocks, lists, {}, p, blocks[p]);
  }

  lemma SizeChanged(s: State, t: State, blocks: map<nat, Blk>, lists: seq<seq<nat>>, p: nat, size: nat)
    requires Good(s, blocks, lists, {}) && p in blocks && blocks[p].live && 1 <= size <= blocks[p].cap
    requires t == s.(mem := t.mem) && p >= HDR && Mapped(s.mem, p - HDR, p)
    requires SameOutside(s.mem, t.mem, p - HDR + 24, p - HDR + 32)
    requires Wrote(s.mem, t.mem, p - HDR, HdrAt(s.mem, p - HDR).(size := size))
    ensures Good(t, blocks[p := blocks[p].(size := size)], lists, {})
    ensures ResizedInPlace(s.mem, blocks, t.mem, blocks[p := blocks[p].(size := size)], p, size)
  {
    HeaderOf(s, blocks, lists, p);
    assert BlockOk(t.mem, p, blocks[p].(size := size));
    OneChanged(s, t.mem, blocks, lists, {}, p, blocks[p].(size := size));
  }

  lemma StillAllocated(l: Mem, blocks: map<nat, Blk>, m: Mem, n: Mem, after: map<nat, Blk>, p: nat, size: nat, align: nat)
    requires Allocated(l, blocks, m, after, p, size, align) && p != 0 && KeepsBlocks(m, n, after, {p})
    ensures Allocated(l, blocks, n, after, p, size, align)
  {
    KeepsThen(l, m, n, blocks, after, set q | q in blocks && !blocks[q].live, {p});
  }

  lemma ProductFits(a: nat, b: nat)
    requires a < U64 && b < U64
    ensures a != 0 ==> (b > (U64 - 1) / a <==> a * b >= U64)
    ensures a == 0 ==> a * b == 0
  {
    if a != 0 {
      var q, r := (U64 - 1) / a, (U64 - 1) % a;
      assert U64 - 1 == a * q + r;
      if b <= q {
        MulMono(b, q, a);
      } else {
        MulMono(q + 1, b, a);
      }
    }
  }

  // ---------------------------------------------------------------- moving a block

  lemma NotMoved(m: Mem, blocks: map<nat, Blk>, n: Mem, p: nat, size: nat)
    requires p in blocks && KeepsLive(m, n, blocks)
    ensures Moved(m, blocks, n, blocks, p, 0, size)
  {
  }

  lemma MoveTarget(s0: State, s1: State, b0: map<nat, Blk>, b1: map<nat, Blk>, lists: seq<seq<nat>>, p: nat, q: nat, size: nat)
    requires p in b0 && b0[p].live && Allocated(s0.mem, b0, s1.mem, b1, q, size, 16) && q != 0
    requires Good(s1, b1, lists, {})
    ensures p in b1 && b1[p] == b0[p] && q in b1 && b1[q].live && p != q
    ensures ShapeOk(p, b1[p]) && ShapeOk(q, b1[q]) && p + b1[p].cap <= b1[p].hi && b1[p].size <= b1[p].cap
    ensures Apart(b1[p], b1[q].lo, b1[q].hi)
    ensures Mapped(s1.mem, p, p + b1[p].size) && Mapped(s1.mem, q, q + b1[q].cap)
  {
    Open(s1, b1, lists, {});
    assert BlockOk(s1.mem, p, b1[p]) && BlockOk(s1.mem, q, b1[q]);
  }

  lemma MoveDone(m0: Mem, m1: Mem, m2: Mem, m3: Mem, b0: map<nat, Blk>, b1: map<nat, Blk>, b3: map<nat, Blk>, p: nat, q: nat, size: nat)
    requires p in b0 && b0[p].live && Allocated(m0, b0, m1, b1, q, size, 16) && q != 0
    requires p in b1 && b1[p] == b0[p] && q in b1 && p != q && ShapeOk(p, b1[p]) && ShapeOk(q, b1[q]) && b0[p].size < size
    requires KeepsBlocks(m1, m2, b1, {q}) && Freed(m2, b1, m3, b3, p)
    requires Mapped(m1, p, p + b0[p].size) && Mapped(m2, q, q + b0[p].size)
    requires Data(m2, q, b0[p].size) == Data(m1, p, b0[p].size)
    ensures Moved(m0, b0, m3, b3, p, q, size)
  {
    assert SameInside(m0, m1, b0[p].lo, b0[p].hi);
    assert SameInside(m2, m3, b1[q].lo, b1[q].hi);
    DataKept(m0, m1, p, b0[p].size);
    DataKept(m2, m3, q, b0[p].size);
    forall r | r in b0 && b0[r].live && r != p
      ensures SameInside(m0, m3, b0[r].lo, b0[r].hi)
    {
      assert SameInside(m0, m1, b0[r].lo, b0[r].hi);
      assert b1[r] == b0[r] && r != q;
      assert SameInside(m1, m2, b1[r].lo, b1[r].hi) && SameInside(m2, m3, b1[r].lo, b1[r].hi);
    }
  }

  lemma DataKept(m: Mem, n: Mem, a: nat, k: nat)
    requires SameInside(m, n, a, a + k)
    ensures Mapped(m, a, a + k) && Mapped(n, a, a + k) && Data(m, a, k) == Data(n, a, k)
  {
  }

  // ---------------------------------------------------------------- what the invariant says

  /** Two live blocks never share an address, and each lies inside mapped memory below 2^63 with its header. */
  lemma LiveApart(s: State, blocks: map<nat, Blk>, lists: seq<seq<nat>>, p: nat, q: nat)
    requires Good(s, blocks, lists, {}) && p in blocks && q in blocks && p != q && blocks[p].live && blocks[q].live
    ensures p - HDR >= blocks[p].lo && p + blocks[p].size <= blocks[p].hi <= TOP && Mapped(s.mem, blocks[p].lo, blocks[p].hi)
    ensures p + blocks[p].size <= q - HDR || q + blocks[q].size <= p - HDR
  {
    Open(s, blocks, lists, {});
    assert BlockOk(s.mem, p, blocks[p]) && BlockOk(s.mem, q, blocks[q]);
    assert Apart(blocks[p], blocks[q].lo, blocks[q].hi);
  }

  /** A slab block is live or sits at exactly one place of exactly one free list, that of its class. */
  lemma LiveOrInOneBin(s: State, blocks: map<nat, Blk>, lists: seq<seq<nat>>, p: nat, c: nat, i: nat, d: nat, j: nat)
    requires Good(s, blocks, lists, {}) && p in blocks && blocks[p].cls < NCLASS
    ensures blocks[p].live || p in lists[blocks[p].cls]
    ensures c < NCLASS && i < |lists[c]| && lists[c][i] == p ==> !blocks[p].live && c == blocks[p].cls
    ensures c < NCLASS && i < |lists[c]| && lists[c][i] == p && d < NCLASS && j < |lists[d]| && lists[d][j] == p ==> c == d && i == j
  {
    Open(s, blocks, lists, {});
    assert ListOk(s.mem, s.bins[blocks[p].cls], lists[blocks[p].cls], blocks, blocks[p].cls);
    if c < NCLASS && i < |lists[c]| && lists[c][i] == p {
      assert ListOk(s.mem, s.bins[c], lists[c], blocks, c);
      if d < NCLASS && j < |lists[d]| && lists[d][j] == p {
        assert ListOk(s.mem, s.bins[d], lists[d], blocks, d);
      }
    }
  }

  /** Every slab block is still one, at its place and in its class. */
  predicate StridesStay(blocks: map<nat, Blk>, after: map<nat, Blk>) {
    forall r :: r in blocks && blocks[r].cls < NCLASS ==> r in after && SamePlace(blocks[r], after[r])
  }

  /** A stride that was ever carved stays a slab block of its class through every call. */
  lemma CarvedForever(m: Mem, blocks: map<nat, Blk>, n: Mem, after: map<nat, Blk>, p: nat, q: nat, size: nat, align: nat)
    ensures Allocated(m, blocks, n, after, p, size, align) ==> StridesStay(blocks, after)
    ensures Freed(m, blocks, n, after, p) ==> StridesStay(blocks, after)
    ensures p in blocks && ResizedInPlace(m, blocks, n, after, p, size) ==> StridesStay(blocks, after)
    ensures p in blocks && Moved(m, blocks, n, after, p, q, size) ==> StridesStay(blocks, after)
  {
  }

  /** The magic number is found exactly before live blocks, and before it in the header the size and the capacity. */
  lemma MagicMarksLive(s: State, blocks: map<nat, Blk>, lists: seq<seq<nat>>, p: nat)
    requires Good(s, blocks, lists, {}) && p in blocks
    ensures p >= 48 && Mapped(s.mem, p - 48, p)
    ensures ReadWord(s.mem, p - 16) == 0xC038_C038_C038_C038 <==> blocks[p].live
    ensures blocks[p].live ==> ReadWord(s.mem, p - 24) == blocks[p].size
    ensures ReadWord(s.mem, p - 32) == blocks[p].cap
  {
    HeaderOf(s, blocks, lists, p);
  }

  /** Only requests above 64 KiB have no class; of the classes that hold one, the smallest wastes less than half. */
  lemma ClassIs(n: nat, c: int)
    requires IsClass(n, c)
    ensures c == -1 <==> n > 65536
    ensures c >= 0 ==> ClassSize(c) == 16 * Exp(c) && n <= ClassSize(c) && (n <= 16 ==> c == 0) && (n > 16 ==> ClassSize(c) < 2 * n)
  {
    assert Exp(12) == 4096;
    if c >= 0 {
      ExpMonotone(c, 12);
    }
  }

  /** The alignments that are accepted are the powers of two. */
  lemma Pow2Iff(a: nat)
    ensures IsPow2(a) <==> exists k :: a == Exp(k)
  {
    if IsPow2(a) {
      var k := Pow2IsExp(a);
    }
    if k :| a == Exp(k) {
      ExpIsPow2(k);
    }
  }

  lemma {:induction false} Pow2IsExp(a: nat) returns (k: nat)
    requires IsPow2(a)
    ensures a == Exp(k)
  {
    if a == 1 {
      k := 0;
    } else {
      k := Pow2IsExp(a / 2);
      k := k + 1;
    }
  }

  lemma {:induction false} ExpIsPow2(k: nat)
    ensures IsPow2(Exp(k))
  {
    if k > 0 {
      ExpIsPow2(k - 1);
      assert Exp(k) / 2 == Exp(k - 1);
    }
  }
}
