/**
 The CRC register of xtask/src/fb_shot.rs: reflected polynomial 0xEDB88320, initial value all
 ones, complemented result (RFC 2083, sections 3.4 and 15).

 The burst theorem is proved for any register over an abstract carrier, from the laws that
 `Laws` collects, and the 32-bit register is then shown to satisfy them.
 */
module Crc32 {
  import opened Base

  const POLY: bv32 := 0xedb8_8320

  function Join(b7: bool, b6: bool, b5: bool, b4: bool, b3: bool, b2: bool, b1: bool, b0: bool): bv32 {
    (if b7 then 128 else 0) | (if b6 then 64 else 0) | (if b5 then 32 else 0) | (if b4 then 16 else 0)
    | (if b3 then 8 else 0) | (if b2 then 4 else 0) | (if b1 then 2 else 0) | (if b0 then 1 else 0)
  }

  /** A byte as the low eight bits of the register. */
  function Bits(b: byte): bv32 {
    var h1 := b / 2;
    var h2 := h1 / 2;
    var h3 := h2 / 2;
    var h4 := h3 / 2;
    var h5 := h4 / 2;
    var h6 := h5 / 2;
    var h7 := h6 / 2;
    Join(h7 == 1, h6 % 2 == 1, h5 % 2 == 1, h4 % 2 == 1, h3 % 2 == 1, h2 % 2 == 1, h1 % 2 == 1, b % 2 == 1)
  }

  /** One bit of the division. */
  function Shift(v: bv32): bv32 {
    (v >> 1) ^ (POLY & (0 - (v & 1)))
  }

  function Xor(a: bv32, b: bv32): bv32 {
    a ^ b
  }

  function Iterate<R>(f: R -> R, v: R, n: nat): R {
    if n == 0 then v else f(Iterate(f, v, n - 1))
  }

  function Fold<R>(absorb: (R, byte) -> R, v: R, data: Bytes): R {
    if data == [] then v else absorb(Fold(absorb, v, data[..|data| - 1]), data[|data| - 1])
  }

  function Turn(v: bv32): bv32 {
    Iterate(Shift, v, 8)
  }

  function Absorb(v: bv32, b: byte): bv32 {
    Turn(Xor(v, Bits(b)))
  }

  function Checksum(data: Bytes): (c: nat)
    ensures c < 0x1_0000_0000
  {
    !Fold(Absorb, 0xffff_ffff, data) as int
  }

  class Register {
    var v: bv32

    constructor ()
      ensures v == 0xffff_ffff
    {
      v := 0xffff_ffff;
    }

    static method ShiftOnce(w: bv32) returns (r: bv32)
      ensures r == Shift(w)
    {
      var m := 0 - (w & 1);
      r := (w >> 1) ^ (POLY & m);
    }

    method Update(d: Bytes)
      modifies this
      ensures v == Fold(Absorb, old(v), d)
    {
      for i := 0 to |d|
        invariant v == Fold(Absorb, old(v), d[..i])
      {
        assert d[..i + 1][..i] == d[..i];
        v := Xor(v, Bits(d[i]));
        ghost var fed := v;
        for k := 0 to 8
          invariant v == Iterate(Shift, fed, k)
        {
          v := ShiftOnce(v);
        }
      }
      assert d[..|d|] == d;
    }

    method Value() returns (c: nat)
      ensures c == (!v) as int
    {
      c := (!v) as int;
    }
  }

  /** The register fed with two pieces, as a chunk's type and data are. */
  method ChecksumOfTwo(a: Bytes, b: Bytes) returns (c: nat)
    ensures c == Checksum(a + b)
  {
    var crc := new Register();
    crc.Update(a);
    crc.Update(b);
    ChecksumComposes(a, b);
    c := crc.Value();
  }

  // ---------------------------------------------------------------- any register

  lemma {:induction false} FoldComposes<R>(absorb: (R, byte) -> R, v: R, a: Bytes, b: Bytes)
    ensures Fold(absorb, v, a + b) == Fold(absorb, Fold(absorb, v, a), b)
  {
    if b == [] {
      assert a + b == a;
    } else {
      assert (a + b)[..|a + b| - 1] == a + b[..|b| - 1];
      FoldComposes(absorb, v, a, b[..|b| - 1]);
    }
  }

  lemma FoldFour<R>(absorb: (R, byte) -> R, v: R, x: Bytes)
    requires |x| == 4
    ensures Fold(absorb, v, x) == absorb(absorb(absorb(absorb(v, x[0]), x[1]), x[2]), x[3])
  {
    assert x[..3][..2] == x[..2] && x[..2][..1] == x[..1] && x[..1][..0] == [];
    assert Fold(absorb, v, x[..1]) == absorb(v, x[0]);
    assert Fold(absorb, v, x[..2]) == absorb(absorb(v, x[0]), x[1]);
    assert Fold(absorb, v, x[..3]) == absorb(absorb(absorb(v, x[0]), x[1]), x[2]);
  }

  lemma IterateEight<R>(f: R -> R, v0: R, v1: R, v2: R, v3: R, v4: R, v5: R, v6: R, v7: R, v8: R)
    requires f(v0) == v1 && f(v1) == v2 && f(v2) == v3 && f(v3) == v4
    requires f(v4) == v5 && f(v5) == v6 && f(v6) == v7 && f(v7) == v8
    ensures Iterate(f, v0, 8) == v8
  {
    assert Iterate(f, v0, 1) == v1;
    assert Iterate(f, v0, 2) == v2;
    assert Iterate(f, v0, 3) == v3;
    assert Iterate(f, v0, 4) == v4;
    assert Iterate(f, v0, 5) == v5;
    assert Iterate(f, v0, 6) == v6;
    assert Iterate(f, v0, 7) == v7;
  }

  /** A carrier with exclusive or: `up` moves a value up one byte, `up1` one bit; `low` values have a clear
      top byte, `clear` values a clear top bit and `small` values only the lowest byte. */
  datatype Carrier<!R> = Carrier(xor: (R, R) -> R, zero: R, up: R -> R, up1: R -> R, low: R -> bool, clear: R -> bool, small: R -> bool)

  ghost predicate Laws<R(!new)>(c: Carrier<R>) {
    SwapLaw(c) && UnitLaws(c)
  }

  ghost predicate SwapLaw<R(!new)>(c: Carrier<R>) {
    forall v, x, w, y {:trigger c.xor(c.xor(v, x), c.xor(w, y))} ::
      c.xor(c.xor(v, x), c.xor(w, y)) == c.xor(c.xor(v, w), c.xor(x, y))
  }

  ghost predicate UnitLaws<R(!new)>(c: Carrier<R>) {
    && (forall a, b {:trigger c.xor(c.xor(a, b), b)} :: c.xor(c.xor(a, b), b) == a)
    && (forall a {:trigger c.xor(a, a)} :: c.xor(a, a) == c.zero)
    && (forall a {:trigger c.xor(c.zero, a)} :: c.xor(c.zero, a) == a)
  }

  ghost predicate ByteLaws<R(!new)>(c: Carrier<R>) {
    && c.up(c.zero) == c.zero && c.low(c.zero)
    && (forall a, b {:trigger c.small(c.xor(a, b))} :: c.small(a) && c.small(b) ==> c.small(c.xor(a, b)))
    && (forall d {:trigger c.low(d)} :: c.small(d) ==> c.low(d))
    && (forall d3, d2 {:trigger c.low(c.xor(c.up(d3), d2))} ::
          c.small(d3) && c.small(d2) ==> c.low(c.xor(c.up(d3), d2)))
    && (forall d3, d2, d1 {:trigger c.low(c.xor(c.up(c.xor(c.up(d3), d2)), d1))} ::
          c.small(d3) && c.small(d2) && c.small(d1) ==> c.low(c.xor(c.up(c.xor(c.up(d3), d2)), d1)))
    && (forall d3, d2, d1, d0 {:trigger c.xor(c.up(c.xor(c.up(c.xor(c.up(d3), d2)), d1)), d0)} ::
          c.small(d3) && c.small(d2) && c.small(d1) && c.small(d0)
          && c.xor(c.up(c.xor(c.up(c.xor(c.up(d3), d2)), d1)), d0) == c.zero
          ==> d3 == c.zero && d2 == c.zero && d1 == c.zero && d0 == c.zero)
  }

  ghost predicate Linear<R(!new)>(c: Carrier<R>, f: R -> R) {
    forall a, b {:trigger f(c.xor(a, b))} :: f(c.xor(a, b)) == c.xor(f(a), f(b))
  }

  /** A turn that leaves the top byte clear only moved the register down by one byte. */
  ghost predicate Reversible<R(!new)>(c: Carrier<R>, f: R -> R) {
    forall v :: c.low(f(v)) ==> v == c.up(f(v))
  }

  /** From the difference `e` of two registers after a byte, their difference before it. */
  lemma StepBack<R(!new)>(c: Carrier<R>, f: R -> R, v: R, w: R, x: R, y: R, e: R)
    requires Laws(c) && Linear(c, f) && Reversible(c, f)
    requires c.xor(f(c.xor(v, x)), f(c.xor(w, y))) == e && c.low(e)
    ensures c.xor(v, w) == c.xor(c.up(e), c.xor(x, y))
  {
    assert f(c.xor(c.xor(v, x), c.xor(w, y))) == e;
    assert c.xor(c.xor(v, w), c.xor(x, y)) == c.up(e);
    assert c.xor(c.xor(c.xor(v, w), c.xor(x, y)), c.xor(x, y)) == c.xor(v, w);
  }

  /** Four bytes fed to equal registers: equal results come from equal bytes. */
  lemma FourBack<R(!new)>(c: Carrier<R>, f: R -> R, v: R, v1: R, v2: R, v3: R, w1: R, w2: R, w3: R,
                          x0: R, x1: R, x2: R, x3: R, y0: R, y1: R, y2: R, y3: R)
    requires Laws(c) && ByteLaws(c) && Linear(c, f) && Reversible(c, f)
    requires c.small(c.xor(x0, y0)) && c.small(c.xor(x1, y1)) && c.small(c.xor(x2, y2)) && c.small(c.xor(x3, y3))
    requires v1 == f(c.xor(v, x0)) && v2 == f(c.xor(v1, x1)) && v3 == f(c.xor(v2, x2))
    requires w1 == f(c.xor(v, y0)) && w2 == f(c.xor(w1, y1)) && w3 == f(c.xor(w2, y2))
    requires f(c.xor(v3, x3)) == f(c.xor(w3, y3))
    ensures x0 == y0 && x1 == y1 && x2 == y2 && x3 == y3
  {
    Lows(c, c.xor(x3, y3), c.xor(x2, y2), c.xor(x1, y1));
    FourChain(c, f, v, v1, v2, v3, w1, w2, w3, x0, x1, x2, x3, y0, y1, y2, y3);
    Vanish(c, v, c.xor(x3, y3), c.xor(x2, y2), c.xor(x1, y1), c.xor(x0, y0));
    Same(c, x0, y0);
    Same(c, x1, y1);
    Same(c, x2, y2);
    Same(c, x3, y3);
  }

  lemma Lows<R(!new)>(c: Carrier<R>, d3: R, d2: R, d1: R)
    requires ByteLaws(c) && c.small(d3) && c.small(d2) && c.small(d1)
    ensures c.up(c.zero) == c.zero && c.low(c.zero) && c.low(d3)
    ensures c.low(c.xor(c.up(d3), d2)) && c.low(c.xor(c.up(c.xor(c.up(d3), d2)), d1))
  {
  }

  /** The differences before each byte, from the last back to the first. */
  lemma FourChain<R(!new)>(c: Carrier<R>, f: R -> R, v: R, v1: R, v2: R, v3: R, w1: R, w2: R, w3: R,
                           x0: R, x1: R, x2: R, x3: R, y0: R, y1: R, y2: R, y3: R)
    requires Laws(c) && Linear(c, f) && Reversible(c, f) && c.up(c.zero) == c.zero && c.low(c.zero)
    requires c.low(c.xor(x3, y3)) && c.low(c.xor(c.up(c.xor(x3, y3)), c.xor(x2, y2)))
    requires c.low(c.xor(c.up(c.xor(c.up(c.xor(x3, y3)), c.xor(x2, y2))), c.xor(x1, y1)))
    requires v1 == f(c.xor(v, x0)) && v2 == f(c.xor(v1, x1)) && v3 == f(c.xor(v2, x2))
    requires w1 == f(c.xor(v, y0)) && w2 == f(c.xor(w1, y1)) && w3 == f(c.xor(w2, y2))
    requires f(c.xor(v3, x3)) == f(c.xor(w3, y3))
    ensures c.xor(v, v) == c.xor(c.up(c.xor(c.up(c.xor(c.up(c.xor(x3, y3)), c.xor(x2, y2))), c.xor(x1, y1))), c.xor(x0, y0))
  {
    var d3 := StepLast(c, f, v3, w3, x3, y3);
    var e2 := StepMore(c, f, v2, w2, x2, y2, v3, w3, d3);
    var e1 := StepMore(c, f, v1, w1, x1, y1, v2, w2, e2);
    var e0 := StepMore(c, f, v, v, x0, y0, v1, w1, e1);
  }

  lemma StepMore<R(!new)>(c: Carrier<R>, f: R -> R, v: R, w: R, x: R, y: R, v': R, w': R, e: R) returns (d: R)
    requires Laws(c) && Linear(c, f) && Reversible(c, f)
    requires v' == f(c.xor(v, x)) && w' == f(c.xor(w, y)) && c.xor(v', w') == e && c.low(e)
    ensures d == c.xor(v, w) == c.xor(c.up(e), c.xor(x, y))
  {
    d := c.xor(v, w);
    StepBack(c, f, v, w, x, y, e);
  }

  lemma Vanish<R(!new)>(c: Carrier<R>, v: R, d3: R, d2: R, d1: R, d0: R)
    requires Laws(c) && ByteLaws(c) && c.small(d3) && c.small(d2) && c.small(d1) && c.small(d0)
    requires c.xor(v, v) == c.xor(c.up(c.xor(c.up(c.xor(c.up(d3), d2)), d1)), d0)
    ensures d3 == c.zero && d2 == c.zero && d1 == c.zero && d0 == c.zero
  {
  }

  lemma Same<R(!new)>(c: Carrier<R>, a: R, b: R)
    requires Laws(c) && c.xor(a, b) == c.zero
    ensures a == b
  {
    assert c.xor(c.xor(a, b), b) == a;
  }

  lemma StepLast<R(!new)>(c: Carrier<R>, f: R -> R, v: R, w: R, x: R, y: R) returns (d: R)
    requires Laws(c) && Linear(c, f) && Reversible(c, f) && c.up(c.zero) == c.zero && c.low(c.zero)
    requires f(c.xor(v, x)) == f(c.xor(w, y))
    ensures d == c.xor(x, y) == c.xor(v, w)
  {
    d := c.xor(x, y);
    assert c.xor(f(c.xor(v, x)), f(c.xor(v, x))) == c.zero;
    StepBack(c, f, v, w, x, y, c.zero);
  }

  lemma OneBack<R(!new)>(c: Carrier<R>, f: R -> R, v: R, w: R, x: R)
    requires Laws(c) && ByteLaws(c) && Linear(c, f) && Reversible(c, f)
    requires f(c.xor(v, x)) == f(c.xor(w, x))
    ensures v == w
  {
    assert c.xor(f(c.xor(v, x)), f(c.xor(v, x))) == c.zero;
    StepBack(c, f, v, w, x, x, c.zero);
    assert c.xor(x, x) == c.zero;
    Same(c, v, w);
  }

  lemma {:induction false} IterateLinear<R(!new)>(c: Carrier<R>, f: R -> R, a: R, b: R, n: nat)
    requires Linear(c, f)
    ensures Iterate(f, c.xor(a, b), n) == c.xor(Iterate(f, a, n), Iterate(f, b, n))
  {
    if n > 0 {
      IterateLinear(c, f, a, b, n - 1);
    }
  }

  ghost predicate BitReversible<R(!new)>(c: Carrier<R>, f: R -> R) {
    forall v :: c.clear(f(v)) ==> v == c.up1(f(v))
  }

  /** Undoing the last `n` of `m` turns moves the result up by `n` bits. */
  lemma {:induction false} IterateBack<R(!new)>(c: Carrier<R>, f: R -> R, v: R, m: nat, n: nat)
    requires BitReversible(c, f) && n <= m
    requires forall k :: 0 <= k < n ==> c.clear(Iterate(c.up1, Iterate(f, v, m), k))
    ensures Iterate(f, v, m - n) == Iterate(c.up1, Iterate(f, v, m), n)
  {
    if n > 0 {
      IterateBack(c, f, v, m, n - 1);
      assert f(Iterate(f, v, m - n)) == Iterate(f, v, m - n + 1);
    }
  }

  // ---------------------------------------------------------------- registers that see bursts

  ghost predicate StateInjective<R(!new)>(absorb: (R, byte) -> R) {
    forall v, w, b :: absorb(v, b) == absorb(w, b) ==> v == w
  }

  ghost predicate WindowInjective<R(!new)>(absorb: (R, byte) -> R) {
    forall v, x: Bytes, y: Bytes ::
      |x| == |y| == 4 && Fold(absorb, v, x) == Fold(absorb, v, y) ==> x == y
  }

  /** Different registers stay different under the same bytes. */
  lemma {:induction false} FoldInjective<R(!new)>(absorb: (R, byte) -> R, v: R, w: R, data: Bytes)
    requires StateInjective(absorb) && Fold(absorb, v, data) == Fold(absorb, w, data)
    ensures v == w
  {
    if data != [] {
      FoldInjective(absorb, v, w, data[..|data| - 1]);
    }
  }

  lemma BurstSeen<R(!new)>(absorb: (R, byte) -> R, v: R, before: Bytes, x: Bytes, y: Bytes, after: Bytes)
    requires StateInjective(absorb) && WindowInjective(absorb) && |x| == |y| == 4 && x != y
    ensures Fold(absorb, v, before + x + after) != Fold(absorb, v, before + y + after)
  {
    FoldComposes(absorb, v, before + x, after);
    FoldComposes(absorb, v, before + y, after);
    FoldComposes(absorb, v, before, x);
    FoldComposes(absorb, v, before, y);
    var p := Fold(absorb, v, before);
    if Fold(absorb, Fold(absorb, p, x), after) == Fold(absorb, Fold(absorb, p, y), after) {
      FoldInjective(absorb, Fold(absorb, p, x), Fold(absorb, p, y), after);
    }
  }

  lemma XorSmall<R(!new)>(c: Carrier<R>, a: R, b: R)
    requires ByteLaws(c) && c.small(a) && c.small(b)
    ensures c.small(c.xor(a, b))
  {
  }

  /** Four bytes that lead from one state to the same state are the same, bit for bit. */
  lemma WindowBits<R(!new)>(c: Carrier<R>, f: R -> R, bits: byte -> R, absorb: (R, byte) -> R, v: R, x: Bytes, y: Bytes)
    requires Sound(c, f, bits, FOLDS) && (forall v, b :: absorb(v, b) == f(c.xor(v, bits(b)))) && |x| == |y| == 4
    requires absorb(absorb(absorb(absorb(v, x[0]), x[1]), x[2]), x[3]) == absorb(absorb(absorb(absorb(v, y[0]), y[1]), y[2]), y[3])
    ensures bits(x[0]) == bits(y[0]) && bits(x[1]) == bits(y[1]) && bits(x[2]) == bits(y[2]) && bits(x[3]) == bits(y[3])
  {
    SoundIs(c, f, bits, FOLDS);
    var v1, w1 := absorb(v, x[0]), absorb(v, y[0]);
    var v2, w2 := absorb(v1, x[1]), absorb(w1, y[1]);
    var v3, w3 := absorb(v2, x[2]), absorb(w2, y[2]);
    XorSmall(c, bits(x[0]), bits(y[0]));
    XorSmall(c, bits(x[1]), bits(y[1]));
    XorSmall(c, bits(x[2]), bits(y[2]));
    XorSmall(c, bits(x[3]), bits(y[3]));
    FourBack(c, f, v, v1, v2, v3, w1, w2, w3, bits(x[0]), bits(x[1]), bits(x[2]), bits(x[3]),
             bits(y[0]), bits(y[1]), bits(y[2]), bits(y[3]));
  }

  lemma SameFour<R(!new)>(c: Carrier<R>, bits: byte -> R, x: Bytes, y: Bytes)
    requires BytesSound(c, bits) && |x| == |y| == 4
    requires bits(x[0]) == bits(y[0]) && bits(x[1]) == bits(y[1]) && bits(x[2]) == bits(y[2]) && bits(x[3]) == bits(y[3])
    ensures x == y
  {
    assert x[0] == y[0] && x[1] == y[1] && x[2] == y[2] && x[3] == y[3];
  }

  lemma WindowBack<R(!new)>(c: Carrier<R>, f: R -> R, bits: byte -> R, absorb: (R, byte) -> R, v: R, x: Bytes, y: Bytes)
    requires Sound(c, f, bits, FOLDS) && BytesSound(c, bits) && (forall v, b :: absorb(v, b) == f(c.xor(v, bits(b))))
    requires |x| == |y| == 4 && Fold(absorb, v, x) == Fold(absorb, v, y)
    ensures x == y
  {
    FoldFour(absorb, v, x);
    FoldFour(absorb, v, y);
    WindowBits(c, f, bits, absorb, v, x, y);
    SameFour(c, bits, x, y);
  }

  lemma AbsorbSees<R(!new)>(c: Carrier<R>, f: R -> R, bits: byte -> R, absorb: (R, byte) -> R)
    requires Sound(c, f, bits, FOLDS)
    requires forall v, b :: absorb(v, b) == f(c.xor(v, bits(b)))
    ensures StateInjective(absorb) && WindowInjective(absorb)
  {
    SoundIs(c, f, bits, FOLDS);
    forall v, w, b | absorb(v, b) == absorb(w, b)
      ensures v == w
    {
      OneBack(c, f, v, w, bits(b));
    }
    forall v, x: Bytes, y: Bytes | |x| == |y| == 4 && Fold(absorb, v, x) == Fold(absorb, v, y)
      ensures x == y
    {
      WindowBack(c, f, bits, absorb, v, x, y);
    }
  }

  // ---------------------------------------------------------------- the 32-bit register

  const WORD: Carrier<bv32> :=
    Carrier(Xor, 0, Up, Up1, v => v < 0x0100_0000, v => v < 0x8000_0000, v => v < 256)

  lemma XorCancel(v: bv32, w: bv32)
    ensures (v ^ w) ^ w == v
  {
  }

  lemma XorZero(v: bv32, w: bv32)
    ensures v ^ w == 0 <==> v == w
  {
  }

  lemma XorSwap(v: bv32, x: bv32, w: bv32, y: bv32)
    ensures Xor(Xor(v, x), Xor(w, y)) == Xor(Xor(v, w), Xor(x, y))
  {
    XorAssoc(v, x, w ^ y);
    XorAssoc(x, w, y);
    XorAssoc(w, x, y);
    XorAssoc(v, w, x ^ y);
    assert x ^ w == w ^ x;
  }

  lemma XorAssoc(a: bv32, b: bv32, c: bv32)
    ensures (a ^ b) ^ c == a ^ (b ^ c)
  {
  }

  lemma WordLaws()
    ensures Laws(WORD)
  {
    WordSwaps();
    WordUnits();
  }

  lemma WordSwaps()
    ensures SwapLaw(WORD)
  {
    forall v: bv32, x: bv32, w: bv32, y: bv32
      ensures Xor(Xor(v, x), Xor(w, y)) == Xor(Xor(v, w), Xor(x, y))
    {
      XorSwap(v, x, w, y);
    }
  }

  lemma WordUnits()
    ensures UnitLaws(WORD)
  {
    forall v: bv32, w: bv32
      ensures Xor(Xor(v, w), w) == v
    {
      XorCancel(v, w);
    }
    forall v: bv32
      ensures Xor(v, v) == 0
    {
      XorZero(v, v);
    }
    forall v: bv32
      ensures Xor(0, v) == v
    {
    }
  }

  function Up(v: bv32): bv32 {
    v << 8
  }

  function Up1(v: bv32): bv32 {
    v << 1
  }

  lemma SmallXor(a: bv32, b: bv32)
    requires a < 256 && b < 256
    ensures Xor(a, b) < 256
  {
  }

  lemma LowTwo(d3: bv32, d2: bv32)
    requires d3 < 256 && d2 < 256
    ensures Xor(Up(d3), d2) < 0x0100_0000
  {
  }

  lemma LowThree(d3: bv32, d2: bv32, d1: bv32)
    requires d3 < 256 && d2 < 256 && d1 < 256
    ensures Xor(Up(Xor(Up(d3), d2)), d1) < 0x0100_0000
  {
  }

  lemma FourZero(d3: bv32, d2: bv32, d1: bv32, d0: bv32)
    requires d3 < 256 && d2 < 256 && d1 < 256 && d0 < 256
    requires Xor(Up(Xor(Up(Xor(Up(d3), d2)), d1)), d0) == 0
    ensures d3 == 0 && d2 == 0 && d1 == 0 && d0 == 0
  {
  }

  lemma WordByteLaws()
    ensures ByteLaws(WORD)
  {
    assert Up(0) == 0;
    forall a: bv32, b: bv32 | a < 256 && b < 256
      ensures Xor(a, b) < 256
    {
      SmallXor(a, b);
    }
    forall d3: bv32, d2: bv32 | d3 < 256 && d2 < 256
      ensures Xor(Up(d3), d2) < 0x0100_0000
    {
      LowTwo(d3, d2);
    }
    forall d3: bv32, d2: bv32, d1: bv32 | d3 < 256 && d2 < 256 && d1 < 256
      ensures Xor(Up(Xor(Up(d3), d2)), d1) < 0x0100_0000
    {
      LowThree(d3, d2, d1);
    }
    forall d3: bv32, d2: bv32, d1: bv32, d0: bv32
      | d3 < 256 && d2 < 256 && d1 < 256 && d0 < 256 && Xor(Up(Xor(Up(Xor(Up(d3), d2)), d1)), d0) == 0
      ensures d3 == 0 && d2 == 0 && d1 == 0 && d0 == 0
    {
      FourZero(d3, d2, d1, d0);
    }
  }

  lemma LowBit(v: bv32)
    ensures v & 1 == 0 || v & 1 == 1
  {
  }

  lemma MaskNone(w: bv32)
    ensures w ^ (POLY & (0 - 0)) == w
  {
  }

  lemma MaskAll(w: bv32)
    ensures w ^ (POLY & (0 - 1)) == w ^ POLY
  {
  }

  lemma ShiftCases(v: bv32)
    ensures v & 1 == 0 ==> Shift(v) == v >> 1
    ensures v & 1 == 1 ==> Shift(v) == (v >> 1) ^ POLY
    ensures v & 1 == 0 || v & 1 == 1
  {
    LowBit(v);
    if v & 1 == 0 {
      MaskNone(v >> 1);
    } else {
      MaskAll(v >> 1);
    }
  }

  lemma XorParts(a: bv32, b: bv32)
    ensures (a ^ b) >> 1 == (a >> 1) ^ (b >> 1)
    ensures (a ^ b) & 1 == (a & 1) ^ (b & 1)
  {
  }

  lemma XorCancels(x: bv32, y: bv32, c: bv32)
    ensures (x ^ c) ^ (y ^ c) == x ^ y
    ensures (x ^ y) ^ c == (x ^ c) ^ y
    ensures (x ^ y) ^ c == x ^ (y ^ c)
  {
  }

  lemma ShiftLinear(a: bv32, b: bv32)
    ensures Shift(Xor(a, b)) == Xor(Shift(a), Shift(b))
  {
    XorParts(a, b);
    ShiftCases(a);
    ShiftCases(b);
    ShiftCases(a ^ b);
    XorCancels(a >> 1, b >> 1, POLY);
  }

  /** The top bit after a shift is the bit that was shifted out, so a clear top bit undoes it. */
  lemma ShiftBack(v: bv32)
    requires Shift(v) < 0x8000_0000
    ensures v == Shift(v) << 1
  {
    ShiftCases(v);
    if v & 1 == 1 {
      TopSet(v);
    } else {
      EvenBack(v);
    }
  }

  lemma TopSet(v: bv32)
    ensures (v >> 1) ^ POLY >= 0x8000_0000
  {
  }

  lemma EvenBack(v: bv32)
    requires v & 1 == 0
    ensures v == (v >> 1) << 1
  {
  }

  lemma EightUp(w: bv32)
    requires w < 0x0100_0000
    ensures w < 0x8000_0000 && (w << 1) < 0x8000_0000 && (w << 2) < 0x8000_0000 && (w << 3) < 0x8000_0000
    ensures (w << 4) < 0x8000_0000 && (w << 5) < 0x8000_0000 && (w << 6) < 0x8000_0000 && (w << 7) < 0x8000_0000
    ensures (w << 1) << 1 == w << 2 && (w << 2) << 1 == w << 3 && (w << 3) << 1 == w << 4 && (w << 4) << 1 == w << 5
    ensures (w << 5) << 1 == w << 6 && (w << 6) << 1 == w << 7 && (w << 7) << 1 == w << 8
  {
  }

  lemma IterateClear<R>(f: R -> R, p: R -> bool, v0: R, v1: R, v2: R, v3: R, v4: R, v5: R, v6: R, v7: R)
    requires f(v0) == v1 && f(v1) == v2 && f(v2) == v3 && f(v3) == v4 && f(v4) == v5 && f(v5) == v6 && f(v6) == v7
    requires p(v0) && p(v1) && p(v2) && p(v3) && p(v4) && p(v5) && p(v6) && p(v7)
    ensures forall k :: 0 <= k < 8 ==> p(Iterate(f, v0, k))
  {
    assert Iterate(f, v0, 0) == v0;
    assert Iterate(f, v0, 1) == v1;
    assert Iterate(f, v0, 2) == v2;
    assert Iterate(f, v0, 3) == v3;
    assert Iterate(f, v0, 4) == v4;
    assert Iterate(f, v0, 5) == v5;
    assert Iterate(f, v0, 6) == v6;
    assert Iterate(f, v0, 7) == v7;
  }

  lemma BitsUp(w: bv32)
    requires w < 0x0100_0000
    ensures forall k :: 0 <= k < 8 ==> WORD.clear(Iterate(Up1, w, k))
    ensures Iterate(Up1, w, 8) == w << 8
  {
    EightUp(w);
    IterateClear(Up1, WORD.clear, w, w << 1, w << 2, w << 3, w << 4, w << 5, w << 6, w << 7);
    IterateEight(Up1, w, w << 1, w << 2, w << 3, w << 4, w << 5, w << 6, w << 7, w << 8);
  }

  lemma ShiftIsLinear()
    ensures Linear(WORD, Shift)
  {
    forall a: bv32, b: bv32
      ensures Shift(Xor(a, b)) == Xor(Shift(a), Shift(b))
    {
      ShiftLinear(a, b);
    }
  }

  lemma ShiftIsReversible()
    ensures BitReversible(WORD, Shift)
  {
    forall v: bv32 | Shift(v) < 0x8000_0000
      ensures v == Shift(v) << 1
    {
      ShiftBack(v);
    }
  }

  lemma TurnBack(v: bv32)
    requires BitReversible(WORD, Shift) && Turn(v) < 0x0100_0000
    ensures v == Turn(v) << 8
  {
    BitsUp(Turn(v));
    IterateBack(WORD, Shift, v, 8, 8);
  }

  lemma TurnIsLinear()
    ensures Linear(WORD, Turn)
  {
    ShiftIsLinear();
    forall a: bv32, b: bv32
      ensures Turn(Xor(a, b)) == Xor(Turn(a), Turn(b))
    {
      IterateLinear(WORD, Shift, a, b, 8);
    }
  }

  lemma TurnIsReversible()
    ensures Reversible(WORD, Turn)
  {
    ShiftIsReversible();
    forall v: bv32 | Turn(v) < 0x0100_0000
      ensures v == Up(Turn(v))
    {
      TurnBack(v);
    }
  }

  lemma JoinReads(b7: bool, b6: bool, b5: bool, b4: bool, b3: bool, b2: bool, b1: bool, b0: bool)
    ensures var j := Join(b7, b6, b5, b4, b3, b2, b1, b0);
            && (j & 128 != 0) == b7 && (j & 64 != 0) == b6 && (j & 32 != 0) == b5 && (j & 16 != 0) == b4
            && (j & 8 != 0) == b3 && (j & 4 != 0) == b2 && (j & 2 != 0) == b1 && (j & 1 != 0) == b0
            && j < 256
  {
  }

  lemma JoinInjective(a7: bool, a6: bool, a5: bool, a4: bool, a3: bool, a2: bool, a1: bool, a0: bool,
                      b7: bool, b6: bool, b5: bool, b4: bool, b3: bool, b2: bool, b1: bool, b0: bool)
    requires Join(a7, a6, a5, a4, a3, a2, a1, a0) == Join(b7, b6, b5, b4, b3, b2, b1, b0)
    ensures a7 == b7 && a6 == b6 && a5 == b5 && a4 == b4 && a3 == b3 && a2 == b2 && a1 == b1 && a0 == b0
  {
    JoinReads(a7, a6, a5, a4, a3, a2, a1, a0);
    JoinReads(b7, b6, b5, b4, b3, b2, b1, b0);
  }

  lemma BitsSmall(b: byte)
    ensures Bits(b) < 256
  {
    var h1 := b / 2;
    var h2 := h1 / 2;
    var h3 := h2 / 2;
    var h4 := h3 / 2;
    var h5 := h4 / 2;
    var h6 := h5 / 2;
    var h7 := h6 / 2;
    JoinReads(h7 == 1, h6 % 2 == 1, h5 % 2 == 1, h4 % 2 == 1, h3 % 2 == 1, h2 % 2 == 1, h1 % 2 == 1, b % 2 == 1);
  }

  lemma Halve(x: nat, y: nat)
    requires x / 2 == y / 2 && (x % 2 == 1 <==> y % 2 == 1)
    ensures x == y
  {
  }

  lemma BitsInjective(x: byte, y: byte)
    requires Bits(x) == Bits(y)
    ensures x == y
  {
    var x1, y1 := x / 2, y / 2;
    var x2, y2 := x1 / 2, y1 / 2;
    var x3, y3 := x2 / 2, y2 / 2;
    var x4, y4 := x3 / 2, y3 / 2;
    var x5, y5 := x4 / 2, y4 / 2;
    var x6, y6 := x5 / 2, y5 / 2;
    var x7, y7 := x6 / 2, y6 / 2;
    JoinInjective(x7 == 1, x6 % 2 == 1, x5 % 2 == 1, x4 % 2 == 1, x3 % 2 == 1, x2 % 2 == 1, x1 % 2 == 1, x % 2 == 1,
                  y7 == 1, y6 % 2 == 1, y5 % 2 == 1, y4 % 2 == 1, y3 % 2 == 1, y2 % 2 == 1, y1 % 2 == 1, y % 2 == 1);
    SameBits(x, y, x1, x2, x3, x4, x5, x6, y1, y2, y3, y4, y5, y6);
  }

  /** A byte is known by its bits. */
  lemma SameBits(x: byte, y: byte, x1: nat, x2: nat, x3: nat, x4: nat, x5: nat, x6: nat,
                 y1: nat, y2: nat, y3: nat, y4: nat, y5: nat, y6: nat)
    requires x1 == x / 2 && x2 == x1 / 2 && x3 == x2 / 2 && x4 == x3 / 2 && x5 == x4 / 2 && x6 == x5 / 2
    requires y1 == y / 2 && y2 == y1 / 2 && y3 == y2 / 2 && y4 == y3 / 2 && y5 == y4 / 2 && y6 == y5 / 2
    requires (x6 / 2 == 1) == (y6 / 2 == 1) && (x6 % 2 == 1) == (y6 % 2 == 1) && (x5 % 2 == 1) == (y5 % 2 == 1)
    requires (x4 % 2 == 1) == (y4 % 2 == 1) && (x3 % 2 == 1) == (y3 % 2 == 1) && (x2 % 2 == 1) == (y2 % 2 == 1)
    requires (x1 % 2 == 1) == (y1 % 2 == 1) && (x % 2 == 1) == (y % 2 == 1)
    ensures x == y
  {
    Halve(x6, y6);
    Halve(x5, y5);
    Halve(x4, y4);
    Halve(x3, y3);
    Halve(x2, y2);
    Halve(x1, y1);
    Halve(x, y);
  }

  // ---------------------------------------------------------------- what the checksum detects

  /** The checksum of a concatenation continues from the register left by the first part. */
  lemma ChecksumComposes(a: Bytes, b: Bytes)
    ensures Checksum(a + b) == (!Fold(Absorb, Fold(Absorb, 0xffff_ffff, a), b)) as int
  {
    FoldComposes(Absorb, 0xffff_ffff, a, b);
  }

  ghost predicate BytesSound<R(!new)>(c: Carrier<R>, bits: byte -> R) {
    (forall b :: c.small(bits(b))) && (forall x, y :: bits(x) == bits(y) ==> x == y)
  }

  ghost predicate CarrierSound<R(!new)>(c: Carrier<R>, f: R -> R) {
    Laws(c) && ByteLaws(c) && Linear(c, f) && Reversible(c, f)
  }

  /** Both, folded. */
  ghost predicate Sound<R(!new)>(c: Carrier<R>, f: R -> R, bits: byte -> R, k: nat)
    decreases k
  {
    if k == 0 then CarrierSound(c, f) && BytesSound(c, bits) else Sound(c, f, bits, k - 1)
  }

  lemma {:induction false} SoundIs<R(!new)>(c: Carrier<R>, f: R -> R, bits: byte -> R, k: nat)
    ensures Sound(c, f, bits, k) <==> CarrierSound(c, f) && BytesSound(c, bits)
    decreases k
  {
    if k > 0 {
      SoundIs(c, f, bits, k - 1);
    }
  }

  lemma RegisterSound()
    ensures Sound(WORD, Turn, Bits, FOLDS)
  {
    WordSound();
    BitsSound();
    SoundIs(WORD, Turn, Bits, FOLDS);
  }

  lemma WordSound()
    ensures CarrierSound(WORD, Turn)
  {
    WordLaws();
    WordByteLaws();
    TurnIsLinear();
    TurnIsReversible();
  }

  lemma BitsSound()
    ensures BytesSound(WORD, Bits)
  {
    forall x: byte
      ensures Bits(x) < 256
    {
      BitsSmall(x);
    }
    forall x: byte, y: byte | Bits(x) == Bits(y)
      ensures x == y
    {
      BitsInjective(x, y);
    }
  }

  lemma AbsorbSound()
    ensures StateInjective(Absorb) && WindowInjective(Absorb)
  {
    RegisterSound();
    AbsorbSees(WORD, Turn, Bits, Absorb);
  }

  /** Any change confined to four consecutive bytes changes the checksum. */
  lemma BurstDetected(before: Bytes, x: Bytes, y: Bytes, after: Bytes)
    requires |x| == |y| == 4 && x != y
    ensures Checksum(before + x + after) != Checksum(before + y + after)
  {
    AbsorbSound();
    BurstSeen(Absorb, 0xffff_ffff, before, x, y, after);
    ChecksumsDiffer(before + x + after, before + y + after);
  }

  lemma ChecksumsDiffer(p: Bytes, q: Bytes)
    requires Fold(Absorb, 0xffff_ffff, p) != Fold(Absorb, 0xffff_ffff, q)
    ensures Checksum(p) != Checksum(q)
  {
    DifferentNumbers(Fold(Absorb, 0xffff_ffff, p), Fold(Absorb, 0xffff_ffff, q));
  }

  lemma DifferentNumbers(a: bv32, b: bv32)
    requires a != b
    ensures (!a) as int != (!b) as int
  {
    assert ((!a) as int) as bv32 == !a && ((!b) as int) as bv32 == !b;
    NotInjective(a, b);
  }

  lemma NotInjective(a: bv32, b: bv32)
    requires a != b
    ensures !a != !b
  {
  }
}
