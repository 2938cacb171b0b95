/**
 Partial mprotect (xtask/src/elf_mmap_rules.rs): a list of mapped regions is split so that
 one address range changes its protection. The list is related to the per-address map it
 stands for: which file offset backs each address and whether it is writable.
 */
module RegionMap {
  const U64_MAX := 0xFFFF_FFFF_FFFF_FFFF

  type u64 = x: int | 0 <= x <= U64_MAX

  datatype Reg = Reg(start: u64, len: u64, off: u64, writable: bool)

  datatype Page = Unmapped | Mapped(off: nat, writable: bool)

  datatype Call = Call(addr: u64, len: u64, writable: bool)

  function SaturatingAdd(a: u64, b: u64): u64 {
    if a + b > U64_MAX then U64_MAX else a + b
  }

  predicate Covers(r: Reg, a: nat) {
    r.start <= a < r.start + r.len
  }

  function PageOf(r: Reg, a: nat): Page {
    if Covers(r, a) then Mapped(r.off + (a - r.start), r.writable) else Unmapped
  }

  /** The per-address map a region list stands for. */
  function PageAt(regs: seq<Reg>, a: nat): Page {
    if regs == [] then Unmapped
    else if Covers(regs[0], a) then PageOf(regs[0], a)
    else PageAt(regs[1..], a)
  }

  predicate InRange(c: Call, a: nat) {
    c.addr + c.len <= U64_MAX && c.addr <= a < c.addr + c.len
  }

  function Protect(p: Page, c: Call, a: nat): Page {
    if p.Mapped? && InRange(c, a) then p.(writable := c.writable) else p
  }

  /** Neither the region nor the file range behind it runs past the top of the 64-bit range. */
  predicate Fits(r: Reg) {
    r.len > 0 && r.start + r.len <= U64_MAX && r.off + r.len <= U64_MAX
  }

  predicate Apart(r: Reg, s: Reg) {
    r.start + r.len <= s.start || s.start + s.len <= r.start
  }

  ghost predicate Valid(regs: seq<Reg>) {
    && (forall i :: 0 <= i < |regs| ==> Fits(regs[i]))
    && (forall i, j :: 0 <= i < j < |regs| ==> Apart(regs[i], regs[j]))
  }

  predicate Misses(r: Reg, c: Call) {
    SaturatingAdd(r.start, r.len) <= c.addr || r.start >= c.addr + c.len
  }

  function Below(r: Reg, c: Call): seq<Reg> {
    if r.start < c.addr then [Reg(r.start, c.addr - r.start, r.off, r.writable)] else []
  }

  function Inside(r: Reg, c: Call): seq<Reg>
    requires c.addr + c.len <= U64_MAX
  {
    var end, rend := c.addr + c.len, SaturatingAdd(r.start, r.len);
    var midStart := if r.start > c.addr then r.start else c.addr;
    var midEnd := if rend < end then rend else end;
    if midEnd > midStart
    then [Reg(midStart, midEnd - midStart, SaturatingAdd(r.off, midStart - r.start), c.writable)]
    else []
  }

  function Above(r: Reg, c: Call): seq<Reg>
    requires c.addr + c.len <= U64_MAX && !Misses(r, c)
  {
    var end, rend := c.addr + c.len, SaturatingAdd(r.start, r.len);
    if rend > end then [Reg(end, rend - end, SaturatingAdd(r.off, end - r.start), r.writable)] else []
  }

  /** The pieces one region is replaced by. */
  function Pieces(r: Reg, c: Call): (out: seq<Reg>)
    requires c.addr + c.len <= U64_MAX
  {
    if Misses(r, c) then [r] else Below(r, c) + Inside(r, c) + Above(r, c)
  }

  predicate Hits(regs: seq<Reg>, c: Call) {
    exists i :: 0 <= i < |regs| && !Misses(regs[i], c)
  }

  function SplitAll(regs: seq<Reg>, c: Call): (out: seq<Reg>) {
    if c.addr + c.len > U64_MAX then regs
    else if regs == [] then []
    else SplitAll(regs[..|regs| - 1], c) + Pieces(regs[|regs| - 1], c)
  }

  class AddressSpace {
    var regs: seq<Reg>

    constructor (initial: seq<Reg>)
      ensures regs == initial
    {
      regs := initial;
    }

    /** What is pushed for a region that the call touches. */
    static method PushPieces(out: seq<Reg>, r: Reg, c: Call) returns (res: seq<Reg>)
      requires c.addr + c.len <= U64_MAX && !Misses(r, c)
      ensures res == out + Pieces(r, c)
    {
      var end, rend := c.addr + c.len, SaturatingAdd(r.start, r.len);
      res := out;
      if r.start < c.addr {
        res := res + [Reg(r.start, c.addr - r.start, r.off, r.writable)];
      }
      var midStart := if r.start > c.addr then r.start else c.addr;
      var midEnd := if rend < end then rend else end;
      if midEnd > midStart {
        res := res + [Reg(midStart, midEnd - midStart, SaturatingAdd(r.off, midStart - r.start), c.writable)];
      }
      if rend > end {
        res := res + [Reg(end, rend - end, SaturatingAdd(r.off, end - r.start), r.writable)];
      }
      assert res == out + Below(r, c) + Inside(r, c) + Above(r, c);
    }

    method SplitProt(addr: u64, len: u64, writable: bool) returns (hit: bool)
      modifies this
      ensures regs == SplitAll(old(regs), Call(addr, len, writable))
      ensures hit <==> addr + len <= U64_MAX && Hits(old(regs), Call(addr, len, writable))
      ensures Refinement(old(regs), regs, Call(addr, len, writable))
    {
      var c := Call(addr, len, writable);
      var drained := regs;
      if addr + len > U64_MAX {
        Refines(drained, c);
        return false;
      }
      var end := addr + len;
      var out: seq<Reg> := [];
      hit := false;
      for i := 0 to |drained|
        invariant out == SplitAll(drained[..i], c)
        invariant hit <==> Hits(drained[..i], c)
      {
        var r := drained[i];
        assert drained[..i + 1] == drained[..i] + [r];
        assert drained[..i + 1][..i] == drained[..i];
        var rend := SaturatingAdd(r.start, r.len);
        if rend <= addr || r.start >= end {
          out := out + [r];
          continue;
        }
        hit := true;
        out := PushPieces(out, r, c);
      }
      assert drained[..|drained|] == drained;
      regs := out;
      Refines(drained, c);
    }
  }

  // ---------------------------------------------------------------- one region

  lemma PageAtAppend(x: seq<Reg>, y: seq<Reg>, a: nat)
    ensures PageAt(x + y, a) == if PageAt(x, a).Mapped? then PageAt(x, a) else PageAt(y, a)
  {
    if x == [] {
      assert x + y == y;
    } else {
      assert (x + y)[1..] == x[1..] + y;
      PageAtAppend(x[1..], y, a);
    }
  }

  lemma PageAtPieces(r: Reg, c: Call, a: nat)
    requires c.addr + c.len <= U64_MAX && !Misses(r, c)
    ensures PageAt(Pieces(r, c), a) ==
            if PageAt(Below(r, c), a).Mapped? then PageAt(Below(r, c), a)
            else if PageAt(Inside(r, c), a).Mapped? then PageAt(Inside(r, c), a)
            else PageAt(Above(r, c), a)
  {
    PageAtAppend(Below(r, c) + Inside(r, c), Above(r, c), a);
    PageAtAppend(Below(r, c), Inside(r, c), a);
  }

  lemma PiecesRefine(r: Reg, c: Call, a: nat)
    requires Fits(r) && c.addr + c.len <= U64_MAX
    ensures PageAt(Pieces(r, c), a) == Protect(PageOf(r, a), c, a)
  {
    if !Misses(r, c) {
      PageAtPieces(r, c, a);
    }
  }

  /** The pieces stay inside the region, so whatever is apart from it stays apart from them. */
  lemma PiecesInside(r: Reg, c: Call)
    requires Fits(r) && c.addr + c.len <= U64_MAX
    ensures Valid(Pieces(r, c))
    ensures forall p :: p in Pieces(r, c) ==> r.start <= p.start && p.start + p.len <= r.start + r.len
  {
  }

  // ---------------------------------------------------------------- the whole list

  predicate Straddles(r: Reg, x: nat) {
    r.start < x < r.start + r.len
  }

  function Straddlers(regs: seq<Reg>, x: nat): nat {
    if regs == [] then 0
    else Straddlers(regs[..|regs| - 1], x) + if Straddles(regs[|regs| - 1], x) then 1 else 0
  }

  lemma {:induction false} AtMostOneStraddler(regs: seq<Reg>, x: nat)
    requires Valid(regs)
    ensures Straddlers(regs, x) <= 1
    ensures Straddlers(regs, x) == 1 ==> exists i :: 0 <= i < |regs| && Straddles(regs[i], x)
  {
    if regs != [] {
      var front := regs[..|regs| - 1];
      AtMostOneStraddler(front, x);
      if Straddlers(front, x) == 1 {
        var i :| 0 <= i < |front| && Straddles(front[i], x);
        assert Straddles(regs[i], x) && Apart(regs[i], regs[|regs| - 1]);
      }
    }
  }

  lemma {:induction false} SplitAllSize(regs: seq<Reg>, c: Call)
    requires forall i :: 0 <= i < |regs| ==> Fits(regs[i])
    ensures |SplitAll(regs, c)| <= |regs| + Straddlers(regs, c.addr) + Straddlers(regs, c.addr + c.len)
  {
    if regs != [] {
      SplitAllSize(regs[..|regs| - 1], c);
    }
  }

  lemma {:induction false} SplitAllInside(regs: seq<Reg>, c: Call, s: Reg)
    requires forall i :: 0 <= i < |regs| ==> Fits(regs[i]) && Apart(regs[i], s)
    ensures forall p :: p in SplitAll(regs, c) ==> Apart(p, s)
  {
    if regs != [] && c.addr + c.len <= U64_MAX {
      SplitAllInside(regs[..|regs| - 1], c, s);
      PiecesInside(regs[|regs| - 1], c);
    }
  }

  lemma {:induction false} SplitAllValid(regs: seq<Reg>, c: Call)
    requires Valid(regs)
    ensures Valid(SplitAll(regs, c))
  {
    if regs != [] && c.addr + c.len <= U64_MAX {
      var front, r := regs[..|regs| - 1], regs[|regs| - 1];
      SplitAllValid(front, c);
      PiecesInside(r, c);
      var x, y := SplitAll(front, c), Pieces(r, c);
      forall i, j | 0 <= i < |x| && 0 <= j < |y|
        ensures Apart(x[i], y[j])
      {
        SplitAllInside(front, c, r);
        assert x[i] in x && y[j] in y;
      }
      forall i, j | 0 <= i < j < |x + y|
        ensures Apart((x + y)[i], (x + y)[j])
      {
      }
    }
  }

  lemma {:induction false} SplitAllPages(regs: seq<Reg>, c: Call, a: nat)
    requires forall i :: 0 <= i < |regs| ==> Fits(regs[i])
    ensures PageAt(SplitAll(regs, c), a) == Protect(PageAt(regs, a), c, a)
  {
    if regs != [] && c.addr + c.len <= U64_MAX {
      var front, r := regs[..|regs| - 1], regs[|regs| - 1];
      SplitAllPages(front, c, a);
      PiecesRefine(r, c, a);
      PageAtAppend(SplitAll(front, c), Pieces(r, c), a);
      PageAtSnoc(regs, a);
    }
  }

  lemma PageAtSnoc(regs: seq<Reg>, a: nat)
    requires regs != []
    ensures PageAt(regs, a) ==
            var front := PageAt(regs[..|regs| - 1], a);
            if front.Mapped? then front else PageOf(regs[|regs| - 1], a)
  {
    var front, r := regs[..|regs| - 1], regs[|regs| - 1];
    assert front + [r] == regs;
    PageAtAppend(front, [r], a);
  }

  /** One call changes the protection of exactly the mapped addresses in its range, keeps the regions
      apart, and adds at most two. */
  ghost predicate Refinement(before: seq<Reg>, after: seq<Reg>, c: Call) {
    Valid(before) ==>
      && Valid(after)
      && |after| <= |before| + 2
      && forall a: nat :: PageAt(after, a) == Protect(PageAt(before, a), c, a)
  }

  lemma Refines(regs: seq<Reg>, c: Call)
    ensures Refinement(regs, SplitAll(regs, c), c)
  {
    if Valid(regs) {
      SplitAllValid(regs, c);
      SplitAllSize(regs, c);
      AtMostOneStraddler(regs, c.addr);
      AtMostOneStraddler(regs, c.addr + c.len);
      forall a: nat {
        SplitAllPages(regs, c, a);
      }
    }
  }

  // ---------------------------------------------------------------- runs of calls

  function Run(regs: seq<Reg>, calls: seq<Call>): seq<Reg> {
    if calls == [] then regs
    else SplitAll(Run(regs, calls[..|calls| - 1]), calls[|calls| - 1])
  }

  /** The protection the last call covering `a` asked for. */
  function LastAsked(calls: seq<Call>, a: nat, initial: bool): bool {
    if calls == [] then initial
    else if InRange(calls[|calls| - 1], a) then calls[|calls| - 1].writable
    else LastAsked(calls[..|calls| - 1], a, initial)
  }

  lemma {:induction false} RunRefines(regs: seq<Reg>, calls: seq<Call>, a: nat)
    requires Valid(regs)
    ensures Valid(Run(regs, calls)) && |Run(regs, calls)| <= |regs| + 2 * |calls|
    ensures var before, after := PageAt(regs, a), PageAt(Run(regs, calls), a);
            if before.Unmapped? then after.Unmapped?
            else after == Mapped(before.off, LastAsked(calls, a, before.writable))
  {
    if calls != [] {
      RunRefines(regs, calls[..|calls| - 1], a);
      Refines(Run(regs, calls[..|calls| - 1]), calls[|calls| - 1]);
    }
  }

  // ---------------------------------------------------------------- the top of the address space

  /** A region that is cut keeps all its addresses exactly when it ends at or below 2^64 - 1: the end
      is computed with a saturating add, so a region that reaches 2^64 loses its last byte. */
  lemma KeepsAddressesIff(r: Reg, c: Call)
    requires c.addr + c.len <= U64_MAX && !Misses(r, c)
    ensures (forall a: nat :: Covers(r, a) && a <= 0xFFFF_FFFF_FFFF_FFFF ==> PageAt(Pieces(r, c), a).Mapped?)
            <==> r.start + r.len <= 0xFFFF_FFFF_FFFF_FFFF
  {
    if r.start + r.len > U64_MAX {
      PageAtPieces(r, c, U64_MAX);
      assert Covers(r, U64_MAX);
    } else {
      forall a: nat | Covers(r, a)
        ensures PageAt(Pieces(r, c), a).Mapped?
      {
        PageAtPieces(r, c, a);
      }
    }
  }
}
