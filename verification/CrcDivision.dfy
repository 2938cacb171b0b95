/**
 What the CRC register of xtask/src/fb_shot.rs computes: the remainder of a polynomial division (RFC 2083, sections 3.4
 and 15). The message is a sequence of coefficients, each byte from its least significant bit on; its first 32 are
 complemented, 32 zeros follow, and the complement of the remainder is the checksum, its lowest bit first.
 */
module CrcDivision {
  import opened Base
  import opened Crc32

  /** Coefficients modulo 2, the highest power first. */
  type Poly = seq<bool>

  /** x^32+x^26+x^23+x^22+x^16+x^12+x^11+x^10+x^8+x^7+x^5+x^4+x^2+x+1, by its exponents. */
  const GENERATOR: set<nat> := {32, 26, 23, 22, 16, 12, 11, 10, 8, 7, 5, 4, 2, 1, 0}

  const DEGREE: nat := 32

  /** The generator's coefficient `j` places below its highest. */
  predicate Coefficient(j: nat) {
    j <= DEGREE && DEGREE - j in GENERATOR
  }

  /** One step of long division: the generator is taken from the highest powers if the highest is there. */
  function Divided(m: Poly): (r: Poly)
    requires |m| > DEGREE
    ensures |r| == |m| - 1
  {
    seq(|m| - 1, (i: nat) requires i < |m| - 1 => m[i + 1] != (m[0] && Coefficient(i + 1)))
  }

  function Remainder(m: Poly): (r: Poly)
    ensures |r| <= DEGREE && (|m| >= DEGREE ==> |r| == DEGREE)
    decreases |m|
  {
    if |m| <= DEGREE then m else Remainder(Divided(m))
  }

  /** The low `n` bits of a number, the lowest first. */
  function LowBits(b: nat, n: nat): (s: seq<bool>)
    ensures |s| == n
  {
    if n == 0 then [] else [b % 2 == 1] + LowBits(b / 2, n - 1)
  }

  function Message(d: Bytes): Poly {
    if d == [] then [] else LowBits(d[0], 8) + Message(d[1..])
  }

  function Falses(n: nat): (s: Poly)
    ensures |s| == n && forall i :: 0 <= i < n ==> !s[i]
  {
    seq(n, i => false)
  }

  function Flipped(m: Poly, n: nat): (r: Poly)
    ensures |r| == |m| && forall i :: 0 <= i < |m| ==> r[i] == (m[i] != (i < n))
  {
    seq(|m|, (i: nat) requires i < |m| => m[i] != (i < n))
  }

  /** The remainder that RFC 2083 asks for. */
  function CrcRemainder(d: Bytes): (r: Poly)
    ensures |r| == DEGREE
  {
    Remainder(Flipped(Message(d) + Falses(DEGREE), DEGREE))
  }

  /** A word from its bits, the lowest first. */
  function Packed(bits: seq<bool>): bv32 {
    if bits == [] then 0 else (if bits[0] then 1 else 0) | (Packed(bits[1..]) << 1)
  }

  // ---------------------------------------------------------------- bits of any word

  /** Bit `i` of a word of which `low` reads the lowest and `down` drops it. */
  predicate Bit<R>(low: R -> bool, down: R -> R, v: R, i: nat) {
    if i == 0 then low(v) else Bit(low, down, down(v), i - 1)
  }

  lemma {:induction false} BitSum<R(!new)>(low: R -> bool, down: R -> R, plus: (R, R) -> R, a: R, b: R, i: nat)
    requires Bitwise(low, down, plus)
    ensures Bit(low, down, plus(a, b), i) == (Bit(low, down, a, i) != Bit(low, down, b, i))
    decreases i
  {
    if i > 0 {
      BitSum(low, down, plus, down(a), down(b), i - 1);
    }
  }

  lemma {:induction false} BitNone<R>(low: R -> bool, down: R -> R, z: R, i: nat)
    requires down(z) == z && !low(z)
    ensures !Bit(low, down, z, i)
    decreases i
  {
    if i > 0 {
      BitNone(low, down, z, i - 1);
    }
  }

  lemma BitDown<R>(low: R -> bool, down: R -> R, v0: R, v1: R, v2: R, v3: R, v4: R, v5: R, v6: R, v7: R, v8: R, i: nat)
    requires down(v0) == v1 && down(v1) == v2 && down(v2) == v3 && down(v3) == v4
    requires down(v4) == v5 && down(v5) == v6 && down(v6) == v7 && down(v7) == v8
    ensures Bit(low, down, v0, i + 8) == Bit(low, down, v8, i)
    ensures Bit(low, down, v0, 0) == low(v0) && Bit(low, down, v0, 1) == low(v1) && Bit(low, down, v0, 2) == low(v2)
    ensures Bit(low, down, v0, 3) == low(v3) && Bit(low, down, v0, 4) == low(v4) && Bit(low, down, v0, 5) == low(v5)
    ensures Bit(low, down, v0, 6) == low(v6) && Bit(low, down, v0, 7) == low(v7)
  {
    assert Bit(low, down, v4, i + 4) == Bit(low, down, v5, i + 3) == Bit(low, down, v6, i + 2) == Bit(low, down, v7, i + 1);
    assert Bit(low, down, v0, i + 8) == Bit(low, down, v1, i + 7) == Bit(low, down, v2, i + 6) == Bit(low, down, v3, i + 5);
    assert Bit(low, down, v2, 1) == low(v3) && Bit(low, down, v3, 1) == low(v4) && Bit(low, down, v4, 1) == low(v5);
    assert Bit(low, down, v2, 2) == low(v4) && Bit(low, down, v3, 2) == low(v5) && Bit(low, down, v4, 2) == low(v6);
    assert Bit(low, down, v1, 3) == low(v4) && Bit(low, down, v2, 3) == low(v5) && Bit(low, down, v3, 3) == low(v6);
    assert Bit(low, down, v4, 3) == low(v7) && Bit(low, down, v3, 4) == low(v7);
    assert Bit(low, down, v1, 4) == low(v5) && Bit(low, down, v2, 4) == low(v6) && Bit(low, down, v2, 5) == low(v7);
    assert Bit(low, down, v1, 5) == low(v6) && Bit(low, down, v1, 6) == low(v7);
  }

  // ---------------------------------------------------------------- bits of the register

  predicate Low(v: bv32) {
    v & 1 == 1
  }

  function Down(v: bv32): bv32 {
    v >> 1
  }

  predicate BitAt(v: bv32, i: nat) {
    Bit(Low, Down, v, i)
  }

  lemma LowXor(a: bv32, b: bv32)
    ensures Low(Xor(a, b)) == (Low(a) != Low(b))
  {
  }

  lemma DownXor(a: bv32, b: bv32)
    ensures Down(Xor(a, b)) == Xor(Down(a), Down(b))
  {
    XorParts(a, b);
  }

  lemma BitXor(a: bv32, b: bv32, i: nat)
    ensures BitAt(Xor(a, b), i) == (BitAt(a, i) != BitAt(b, i))
  {
    RegisterBitwise();
    BitSum(Low, Down, Xor, a, b, i);
  }

  /** The lowest eight bits one by one, and those above them. */
  lemma LowByte(v: bv32, i: nat)
    ensures BitAt(v, i + 8) == BitAt(v >> 8, i)
    ensures BitAt(v, 0) == (v & 1 != 0) && BitAt(v, 1) == (v & 2 != 0) && BitAt(v, 2) == (v & 4 != 0) && BitAt(v, 3) == (v & 8 != 0)
    ensures BitAt(v, 4) == (v & 16 != 0) && BitAt(v, 5) == (v & 32 != 0) && BitAt(v, 6) == (v & 64 != 0) && BitAt(v, 7) == (v & 128 != 0)
  {
    Shifts(v);
    BitDown(Low, Down, v, v >> 1, v >> 2, v >> 3, v >> 4, v >> 5, v >> 6, v >> 7, v >> 8, i);
  }

  lemma Shifts(v: bv32)
    ensures Down(v) == v >> 1 && Down(v >> 1) == v >> 2 && Down(v >> 2) == v >> 3 && Down(v >> 3) == v >> 4
    ensures Down(v >> 4) == v >> 5 && Down(v >> 5) == v >> 6 && Down(v >> 6) == v >> 7 && Down(v >> 7) == v >> 8
    ensures Low(v) == (v & 1 != 0) && Low(v >> 1) == (v & 2 != 0) && Low(v >> 2) == (v & 4 != 0) && Low(v >> 3) == (v & 8 != 0)
    ensures Low(v >> 4) == (v & 16 != 0) && Low(v >> 5) == (v & 32 != 0) && Low(v >> 6) == (v & 64 != 0) && Low(v >> 7) == (v & 128 != 0)
  {
  }

  lemma BytesGone(v: bv32)
    ensures v >> 8 >> 8 == v >> 16 && v >> 16 >> 8 == v >> 24 && v >> 24 >> 8 == 0
  {
  }

  lemma TwoBytes(v: bv32, i: nat)
    ensures BitAt(v, i + 16) == BitAt(v >> 16, i)
  {
    BytesGone(v);
    LowByte(v, i + 8);
    LowByte(v >> 8, i);
  }

  lemma ThreeBytes(v: bv32, i: nat)
    ensures BitAt(v, i + 24) == BitAt(v >> 24, i)
  {
    BytesGone(v);
    TwoBytes(v, i + 8);
    LowByte(v >> 16, i);
  }

  /** No bits beyond the fourth byte. */
  lemma BitsEnd(v: bv32, i: nat)
    ensures !BitAt(v, i + 32)
  {
    BytesGone(v);
    ThreeBytes(v, i + 8);
    LowByte(v >> 24, i);
    NoBits(i);
  }

  lemma NoBits(i: nat)
    ensures !BitAt(0, i)
  {
    assert Down(0) == 0 && !Low(0);
    BitNone(Low, Down, 0 as bv32, i);
  }

  /** The register's constant is the generator below its highest power, reflected. */
  lemma PolyIsGenerator(i: nat)
    requires i < DEGREE
    ensures BitAt(POLY, i) <==> Coefficient(i + 1)
  {
    PolyBytes();
    if i < 8 {
      FirstByte(i);
    } else if i < 16 {
      LowByte(POLY, i - 8);
      SecondByte(i);
    } else if i < 24 {
      TwoBytes(POLY, i - 16);
      ThirdByte(i);
    } else {
      ThreeBytes(POLY, i - 24);
      LastByte(i);
    }
  }

  lemma FirstByte(i: nat)
    requires i < 8
    ensures BitAt(POLY, i) <==> Coefficient(i + 1)
  {
    LowByte(POLY, 0);
  }

  lemma SecondByte(i: nat)
    requires 8 <= i < 16
    ensures BitAt(0xed_b883, i - 8) <==> Coefficient(i + 1)
  {
    LowByte(0xed_b883, 0);
  }

  lemma ThirdByte(i: nat)
    requires 16 <= i < 24
    ensures BitAt(0xedb8, i - 16) <==> Coefficient(i + 1)
  {
    LowByte(0xedb8, 0);
  }

  lemma LastByte(i: nat)
    requires 24 <= i < 32
    ensures BitAt(0xed, i - 24) <==> Coefficient(i + 1)
  {
    LowByte(0xed, 0);
  }

  lemma PolyBytes()
    ensures POLY >> 8 == 0xed_b883 && POLY >> 16 == 0xedb8 && POLY >> 24 == 0xed
  {
  }

  // ---------------------------------------------------------------- one bit of the message

  /** The register fed with one coefficient of the message. */
  function StepBit(v: bv32, b: bool): bv32 {
    Shift(Xor(v, Input(b)))
  }

  function Input(b: bool): bv32 {
    if b then 1 else 0
  }

  lemma BitOne(i: nat)
    ensures BitAt(1, i) <==> i == 0
  {
    assert Low(1) && Down(1) == 0;
    if i > 0 {
      NoBits(i - 1);
    }
  }

  /** A register that adds and shifts bitwise. */
  ghost predicate Bitwise<R(!new)>(low: R -> bool, down: R -> R, plus: (R, R) -> R) {
    forall a, b {:trigger plus(a, b)} :: low(plus(a, b)) == (low(a) != low(b)) && down(plus(a, b)) == plus(down(a), down(b))
  }

  ghost predicate ShiftsBy<R(!new)>(low: R -> bool, down: R -> R, plus: (R, R) -> R, shift: R -> R, poly: R) {
    forall w {:trigger shift(w)} :: shift(w) == if low(w) then plus(down(w), poly) else down(w)
  }

  ghost predicate Inputs<R(!new)>(low: R -> bool, down: R -> R, input: bool -> R) {
    forall b, i: nat {:trigger Bit(low, down, input(b), i)} :: Bit(low, down, input(b), i) <==> b && i == 0
  }

  ghost predicate Generates<R(!new)>(low: R -> bool, down: R -> R, poly: R) {
    forall i: nat {:trigger Bit(low, down, poly, i)} :: i < DEGREE ==> (Bit(low, down, poly, i) <==> Coefficient(i + 1))
  }

  ghost predicate Feeds<R(!new)>(plus: (R, R) -> R, shift: R -> R, input: bool -> R, step: (R, bool) -> R) {
    forall v, b {:trigger step(v, b)} :: step(v, b) == shift(plus(v, input(b)))
  }

  ghost predicate Narrow<R(!new)>(low: R -> bool, down: R -> R) {
    forall v {:trigger Bit(low, down, v, DEGREE)} :: !Bit(low, down, v, DEGREE)
  }

  lemma RegisterBitwise()
    ensures Bitwise(Low, Down, Xor)
  {
    forall x: bv32, y: bv32
      ensures Low(Xor(x, y)) == (Low(x) != Low(y)) && Down(Xor(x, y)) == Xor(Down(x), Down(y))
    {
      LowXor(x, y);
      DownXor(x, y);
    }
  }

  lemma RegisterShifts()
    ensures ShiftsBy(Low, Down, Xor, Shift, POLY)
  {
    forall w: bv32
      ensures Shift(w) == if Low(w) then Xor(Down(w), POLY) else Down(w)
    {
      ShiftOfLow(w);
    }
  }

  lemma RegisterInputs()
    ensures Inputs(Low, Down, Input)
  {
    forall b: bool, i: nat
      ensures Bit(Low, Down, Input(b), i) <==> b && i == 0
    {
      InputBit(b, i);
    }
  }

  lemma RegisterGenerates()
    ensures Generates(Low, Down, POLY)
  {
    forall i: nat | i < DEGREE
      ensures Bit(Low, Down, POLY, i) <==> Coefficient(i + 1)
    {
      PolyIsGenerator(i);
    }
  }

  lemma RegisterFeeds()
    ensures Feeds(Xor, Shift, Input, StepBit)
  {
  }

  lemma RegisterNarrow()
    ensures Narrow(Low, Down)
  {
    forall v: bv32
      ensures !Bit(Low, Down, v, DEGREE)
    {
      BitsEnd(v, 0);
    }
  }

  lemma InputBit(b: bool, i: nat)
    ensures BitAt(Input(b), i) <==> b && i == 0
  {
    BitOne(i);
    NoBits(i);
  }

  lemma ShiftOfLow(w: bv32)
    ensures Shift(w) == if Low(w) then Xor(Down(w), POLY) else Down(w)
    ensures BitAt(w, 0) == Low(w)
  {
    ShiftCases(w);
  }

  // ---------------------------------------------------------------- the register divides

  /** The register's bits, the lowest first, are the coefficients from the highest power on. */
  function Coefficients<R>(low: R -> bool, down: R -> R, v: R): (m: Poly)
    ensures |m| == DEGREE
  {
    seq(DEGREE, (i: nat) => Bit(low, down, v, i))
  }

  /** The highest coefficients changed by those of the register. */
  function Topped<R>(low: R -> bool, down: R -> R, m: Poly, v: R): (r: Poly)
    ensures |r| == |m| && forall i :: 0 <= i < |m| ==> r[i] == (m[i] != (i < DEGREE && Bit(low, down, v, i)))
  {
    seq(|m|, (i: nat) requires i < |m| => m[i] != (i < DEGREE && Bit(low, down, v, i)))
  }

  function Fed<R>(step: (R, bool) -> R, v: R, bits: seq<bool>): R
    decreases |bits|
  {
    if bits == [] then v else Fed(step, step(v, bits[0]), bits[1..])
  }

  /** A register of as many bits as the degree, whose steps take the generator away. */
  ghost predicate Divides<R(!new)>(low: R -> bool, down: R -> R, step: (R, bool) -> R) {
    && (forall v, b, i: nat {:trigger Bit(low, down, step(v, b), i)} :: i < DEGREE ==>
          Bit(low, down, step(v, b), i) == (Bit(low, down, v, i + 1) != ((b != Bit(low, down, v, 0)) && Coefficient(i + 1))))
    && Narrow(low, down)
  }

  lemma StepSeen<R(!new)>(low: R -> bool, down: R -> R, plus: (R, R) -> R, shift: R -> R, poly: R, v: R, x: R, i: nat)
    requires Bitwise(low, down, plus) && ShiftsBy(low, down, plus, shift, poly)
    ensures Bit(low, down, shift(plus(v, x)), i) ==
            ((Bit(low, down, v, i + 1) != Bit(low, down, x, i + 1))
             != ((Bit(low, down, v, 0) != Bit(low, down, x, 0)) && Bit(low, down, poly, i)))
  {
    var w := plus(v, x);
    BitSum(low, down, plus, v, x, i + 1);
    BitSum(low, down, plus, down(w), poly, i);
    assert Bit(low, down, w, i + 1) == Bit(low, down, down(w), i);
  }

  /** Any register with these laws divides. */
  lemma LawsDivide<R(!new)>(low: R -> bool, down: R -> R, plus: (R, R) -> R, shift: R -> R, poly: R, input: bool -> R,
                            step: (R, bool) -> R)
    requires Bitwise(low, down, plus) && ShiftsBy(low, down, plus, shift, poly) && Inputs(low, down, input)
    requires Generates(low, down, poly) && Feeds(plus, shift, input, step) && Narrow(low, down)
    ensures Divides(low, down, step)
  {
    forall v, b, i: nat | i < DEGREE
      ensures Bit(low, down, step(v, b), i) == (Bit(low, down, v, i + 1) != ((b != Bit(low, down, v, 0)) && Coefficient(i + 1)))
    {
      StepSeen(low, down, plus, shift, poly, v, input(b), i);
      assert !Bit(low, down, input(b), i + 1) && Bit(low, down, input(b), 0) == b;
      assert Bit(low, down, poly, i) <==> Coefficient(i + 1);
    }
  }

  /** One step of the register is one step of the division. */
  lemma StepDivides<R(!new)>(low: R -> bool, down: R -> R, step: (R, bool) -> R, v: R, bits: seq<bool>)
    requires Divides(low, down, step) && bits != []
    ensures Divided(Topped(low, down, bits + Falses(DEGREE), v))
         == Topped(low, down, bits[1..] + Falses(DEGREE), step(v, bits[0]))
  {
    var m, next := bits + Falses(DEGREE), bits[1..] + Falses(DEGREE);
    var d, w := Topped(low, down, m, v), step(v, bits[0]);
    forall i | 0 <= i < |d| - 1
      ensures Divided(d)[i] == Topped(low, down, next, w)[i]
    {
      assert m[i + 1] == next[i];
      if i < DEGREE {
        assert Bit(low, down, w, i) == (Bit(low, down, v, i + 1) != ((bits[0] != Bit(low, down, v, 0)) && Coefficient(i + 1)));
        assert !Bit(low, down, v, DEGREE);
      }
    }
  }

  lemma {:induction false} FedDivides<R(!new)>(low: R -> bool, down: R -> R, step: (R, bool) -> R, v: R, bits: seq<bool>)
    requires Divides(low, down, step)
    ensures Remainder(Topped(low, down, bits + Falses(DEGREE), v)) == Coefficients(low, down, Fed(step, v, bits))
    decreases |bits|
  {
    if bits == [] {
      assert Topped(low, down, [] + Falses(DEGREE), v) == Coefficients(low, down, v);
    } else {
      StepDivides(low, down, step, v, bits);
      FedDivides(low, down, step, step(v, bits[0]), bits[1..]);
    }
  }

  lemma RegisterDivides()
    ensures Divides(Low, Down, StepBit)
  {
    RegisterBitwise();
    RegisterShifts();
    RegisterInputs();
    RegisterGenerates();
    RegisterFeeds();
    RegisterNarrow();
    LawsDivide(Low, Down, Xor, Shift, POLY, Input, StepBit);
  }

  // ---------------------------------------------------------------- a byte is eight bits

  lemma {:induction false} FedAppend<R>(step: (R, bool) -> R, v: R, a: seq<bool>, b: seq<bool>)
    ensures Fed(step, v, a + b) == Fed(step, Fed(step, v, a), b)
    decreases |a|
  {
    if a == [] {
      assert a + b == b;
    } else {
      assert (a + b)[1..] == a[1..] + b;
      FedAppend(step, step(v, a[0]), a[1..], b);
    }
  }

  lemma FedOne<R>(step: (R, bool) -> R, v: R, b: bool)
    ensures Fed(step, v, [b]) == step(v, b)
  {
    assert [b][1..] == [];
  }

  function DownBy(x: bv32, k: nat): bv32 {
    if k == 0 then x else Down(DownBy(x, k - 1))
  }

  lemma {:induction false} BitOfDown(x: bv32, k: nat, i: nat)
    ensures BitAt(x, k + i) == BitAt(DownBy(x, k), i)
    decreases k
  {
    if k > 0 {
      BitOfDown(x, k - 1, i + 1);
    }
  }

  /** The input's lowest bit can be added now and the others later. */
  lemma ShiftPeels(v: bv32, x: bv32)
    ensures Shift(Xor(v, x)) == Xor(StepBit(v, Low(x)), Down(x))
  {
    var u: bv32 := if Low(x) then 1 else 0;
    var rest := Xor(u, x);
    LowBit(x);
    RestShifts(x, u, rest);
    assert Xor(v, x) == Xor(Xor(v, u), rest) by {
      XorThree(v, u, x);
    }
    ShiftLinear(Xor(v, u), rest);
  }

  lemma RestShifts(x: bv32, u: bv32, rest: bv32)
    requires rest == Xor(u, x) && u == x & 1
    ensures Shift(rest) == Down(x)
  {
    Dropped(x);
    ShiftCases(rest);
  }

  lemma Dropped(x: bv32)
    ensures ((x & 1) ^ x) & 1 == 0 && ((x & 1) ^ x) >> 1 == x >> 1
  {
  }

  lemma XorThree(v: bv32, u: bv32, x: bv32)
    ensures Xor(v, x) == Xor(Xor(v, u), Xor(u, x))
  {
    Regrouped(v, u, Xor(u, x));
    Regrouped(u, u, x);
    NoChange(u, x);
    ThreeOfAny(Xor, v, u, x, 0 as bv32);
  }

  lemma ThreeOfAny<R>(plus: (R, R) -> R, v: R, u: R, x: R, zero: R)
    requires plus(plus(v, u), plus(u, x)) == plus(v, plus(u, plus(u, x))) && plus(u, plus(u, x)) == plus(plus(u, u), x)
    requires plus(u, u) == zero && plus(zero, x) == x
    ensures plus(v, x) == plus(plus(v, u), plus(u, x))
  {
  }

  lemma Regrouped(a: bv32, b: bv32, c: bv32)
    ensures Xor(Xor(a, b), c) == Xor(a, Xor(b, c)) && Xor(b, Xor(b, c)) == Xor(Xor(b, b), c)
  {
  }

  lemma NoChange(u: bv32, x: bv32)
    ensures Xor(u, u) == 0 && Xor(0, x) == x
  {
  }

  lemma {:induction false} ShiftsFeed(v: bv32, x: bv32, bits: seq<bool>, k: nat)
    requires k <= |bits| && forall i :: 0 <= i < k ==> bits[i] == BitAt(x, i)
    ensures Iterate(Shift, Xor(v, x), k) == Xor(Fed(StepBit, v, bits[..k]), DownBy(x, k))
    decreases k
  {
    if k > 0 {
      ShiftsFeed(v, x, bits, k - 1);
      var fed := Fed(StepBit, v, bits[..k - 1]);
      BitOfDown(x, k - 1, 0);
      ShiftPeels(fed, DownBy(x, k - 1));
      FedAppend(StepBit, v, bits[..k - 1], [bits[k - 1]]);
      FedOne(StepBit, fed, bits[k - 1]);
      assert bits[..k - 1] + [bits[k - 1]] == bits[..k];
    }
  }

  /** A byte's bits in the register and as coefficients. */
  lemma ByteBits(b: byte, i: nat)
    requires i < 8
    ensures BitAt(Bits(b), i) == LowBits(b, 8)[i]
  {
    var h1 := b / 2;
    var h2 := h1 / 2;
    var h3 := h2 / 2;
    var h4 := h3 / 2;
    var h5 := h4 / 2;
    var h6 := h5 / 2;
    var h7 := h6 / 2;
    JoinedBits(h7 == 1, h6 % 2 == 1, h5 % 2 == 1, h4 % 2 == 1, h3 % 2 == 1, h2 % 2 == 1, h1 % 2 == 1, b % 2 == 1, i);
    LowBitsAt(b, 8, i);
    EightHalves(b, h1, h2, h3, h4, h5, h6, h7, i);
  }

  lemma JoinedBits(b7: bool, b6: bool, b5: bool, b4: bool, b3: bool, b2: bool, b1: bool, b0: bool, i: nat)
    requires i < 8
    ensures BitAt(Join(b7, b6, b5, b4, b3, b2, b1, b0), i) ==
            if i == 0 then b0 else if i == 1 then b1 else if i == 2 then b2 else if i == 3 then b3
            else if i == 4 then b4 else if i == 5 then b5 else if i == 6 then b6 else b7
  {
    JoinReads(b7, b6, b5, b4, b3, b2, b1, b0);
    LowByte(Join(b7, b6, b5, b4, b3, b2, b1, b0), 0);
  }

  function Halved(b: nat, i: nat): nat {
    if i == 0 then b else Halved(b / 2, i - 1)
  }

  lemma {:induction false} LowBitsAt(b: nat, n: nat, i: nat)
    requires i < n
    ensures LowBits(b, n)[i] == (Halved(b, i) % 2 == 1)
    decreases i
  {
    if i > 0 {
      LowBitsAt(b / 2, n - 1, i - 1);
    }
  }

  lemma EightHalves(b: nat, h1: nat, h2: nat, h3: nat, h4: nat, h5: nat, h6: nat, h7: nat, i: nat)
    requires b < 256 && h1 == b / 2 && h2 == h1 / 2 && h3 == h2 / 2 && h4 == h3 / 2 && h5 == h4 / 2 && h6 == h5 / 2 && h7 == h6 / 2
    requires i < 8
    ensures h7 < 2
    ensures Halved(b, i) == if i == 0 then b else if i == 1 then h1 else if i == 2 then h2 else if i == 3 then h3
                            else if i == 4 then h4 else if i == 5 then h5 else if i == 6 then h6 else h7
  {
    var j := i;
    assert j >= 1 ==> Halved(b, j) == Halved(h1, j - 1);
    assert j >= 2 ==> Halved(h1, j - 1) == Halved(h2, j - 2);
    assert j >= 3 ==> Halved(h2, j - 2) == Halved(h3, j - 3);
    assert j >= 4 ==> Halved(h3, j - 3) == Halved(h4, j - 4);
    assert j >= 5 ==> Halved(h4, j - 4) == Halved(h5, j - 5);
    assert j >= 6 ==> Halved(h5, j - 5) == Halved(h6, j - 6);
    assert j >= 7 ==> Halved(h6, j - 6) == Halved(h7, j - 7);
  }

  lemma AbsorbFeeds(v: bv32, b: byte)
    ensures Absorb(v, b) == Fed(StepBit, v, LowBits(b, 8))
  {
    var bits := LowBits(b, 8);
    forall i | 0 <= i < 8
      ensures bits[i] == BitAt(Bits(b), i)
    {
      ByteBits(b, i);
    }
    ShiftsFeed(v, Bits(b), bits, 8);
    assert bits[..8] == bits;
    BitsSmall(b);
    EightGone(Bits(b));
  }

  lemma EightGone(x: bv32)
    requires x < 256
    ensures DownBy(x, 8) == 0 && forall v: bv32 :: Xor(v, 0) == v
  {
    Shifts(x);
    assert DownBy(x, 1) == x >> 1;
    assert DownBy(x, 2) == x >> 2;
    assert DownBy(x, 3) == x >> 3;
    assert DownBy(x, 4) == x >> 4;
    assert DownBy(x, 5) == x >> 5;
    assert DownBy(x, 6) == x >> 6;
    assert DownBy(x, 7) == x >> 7;
    assert DownBy(x, 8) == x >> 8;
  }

  lemma {:induction false} FoldFeeds(v: bv32, d: Bytes)
    ensures Fold(Absorb, v, d) == Fed(StepBit, v, Message(d))
    decreases |d|
  {
    if d != [] {
      FoldComposes(Absorb, v, [d[0]], d[1..]);
      assert [d[0]] + d[1..] == d;
      assert [d[0]][..0] == [];
      assert Fold(Absorb, v, [d[0]]) == Absorb(v, d[0]);
      AbsorbFeeds(v, d[0]);
      FoldFeeds(Absorb(v, d[0]), d[1..]);
      FedAppend(StepBit, v, LowBits(d[0], 8), Message(d[1..]));
    }
  }

  // ---------------------------------------------------------------- the checksum

  lemma AllOnes(i: nat)
    requires i < DEGREE
    ensures BitAt(0xffff_ffff, i)
  {
    var v: bv32 := 0xffff_ffff;
    OnesBytes(v);
    if i < 8 {
      OnesLow(v, i);
    } else if i < 16 {
      LowByte(v, i - 8);
      OnesLow(v >> 8, i - 8);
    } else if i < 24 {
      TwoBytes(v, i - 16);
      OnesLow(v >> 16, i - 16);
    } else {
      ThreeBytes(v, i - 24);
      OnesLow(v >> 24, i - 24);
    }
  }

  lemma OnesBytes(v: bv32)
    requires v == 0xffff_ffff
    ensures v & 255 == 255 && (v >> 8) & 255 == 255 && (v >> 16) & 255 == 255 && (v >> 24) & 255 == 255
  {
  }

  lemma OnesLow(w: bv32, i: nat)
    requires w & 255 == 255 && i < 8
    ensures BitAt(w, i)
  {
    LowByte(w, 0);
    EightOnes(w);
  }

  lemma EightOnes(w: bv32)
    requires w & 255 == 255
    ensures w & 1 != 0 && w & 2 != 0 && w & 4 != 0 && w & 8 != 0 && w & 16 != 0 && w & 32 != 0 && w & 64 != 0 && w & 128 != 0
  {
  }

  lemma NotIsXor(v: bv32)
    ensures !v == Xor(v, 0xffff_ffff)
  {
  }

  /** A word is packed from its bits. */
  lemma {:induction false} PackedBits(w: bv32, bits: seq<bool>, n: nat)
    requires DownBy(w, n) == 0 && |bits| == n && forall i :: 0 <= i < n ==> bits[i] == BitAt(w, i)
    ensures Packed(bits) == w
    decreases n
  {
    if n > 0 {
      DownFirst(w, n - 1);
      forall i | 0 <= i < n - 1
        ensures bits[1..][i] == BitAt(Down(w), i)
      {
        assert bits[i + 1] == BitAt(w, i + 1);
      }
      PackedBits(Down(w), bits[1..], n - 1);
      assert bits[0] == Low(w);
      Halves(w);
    }
  }

  lemma {:induction false} DownFirst(w: bv32, k: nat)
    ensures DownBy(Down(w), k) == DownBy(w, k + 1)
    decreases k
  {
    if k > 0 {
      DownFirst(w, k - 1);
    }
  }

  lemma Halves(w: bv32)
    ensures (if Low(w) then 1 else 0) | (Down(w) << 1) == w
  {
  }

  lemma {:induction false} DownBytes(w: bv32, k: nat)
    ensures DownBy(w, k + 8) == DownBy(w >> 8, k)
    decreases k
  {
    if k == 0 {
      Shifts(w);
      assert DownBy(w, 1) == w >> 1;
      assert DownBy(w, 2) == w >> 2;
      assert DownBy(w, 3) == w >> 3;
      assert DownBy(w, 4) == w >> 4;
      assert DownBy(w, 5) == w >> 5;
      assert DownBy(w, 6) == w >> 6;
      assert DownBy(w, 7) == w >> 7;
      assert DownBy(w, 8) == w >> 8;
    } else {
      DownBytes(w, k - 1);
    }
  }

  lemma AllGone(w: bv32, n: nat)
    requires n == 32
    ensures DownBy(w, n) == 0
  {
    DownTwo(w, n - 16);
    DownTwo(w >> 16, n - 32);
    FourBytes(w);
  }

  lemma DownTwo(w: bv32, k: nat)
    ensures DownBy(w, k + 16) == DownBy(w >> 16, k)
  {
    BytesGone(w);
    DownBytes(w, k + 8);
    DownBytes(w >> 8, k);
  }

  lemma FourBytes(w: bv32)
    ensures w >> 16 >> 16 == 0
  {
  }

  /** The checksum of a chunk is the complement of the remainder, its lowest bit first. */
  lemma ChecksumIsRemainder(d: Bytes)
    ensures Checksum(d) == Packed(Flipped(CrcRemainder(d), DEGREE)) as int
  {
    var v := Fold(Absorb, 0xffff_ffff, d);
    RegisterIsRemainder(d, v);
    forall i | 0 <= i < DEGREE
      ensures Flipped(Coefficients(Low, Down, v), DEGREE)[i] == BitAt(!v, i)
    {
      NotIsXor(v);
      BitXor(v, 0xffff_ffff, i);
      AllOnes(i);
    }
    AllGone(!v, DEGREE);
    PackedBits(!v, Flipped(Coefficients(Low, Down, v), DEGREE), DEGREE);
  }

  lemma RegisterIsRemainder(d: Bytes, v: bv32)
    requires v == Fold(Absorb, 0xffff_ffff, d)
    ensures CrcRemainder(d) == Coefficients(Low, Down, v)
  {
    FoldFeeds(0xffff_ffff, d);
    RegisterDivides();
    FedDivides(Low, Down, StepBit, 0xffff_ffff, Message(d));
    var m := Message(d) + Falses(DEGREE);
    forall i | 0 <= i < |m|
      ensures Flipped(m, DEGREE)[i] == Topped(Low, Down, m, 0xffff_ffff)[i]
    {
      if i < DEGREE {
        AllOnes(i);
      }
    }
    assert Flipped(m, DEGREE) == Topped(Low, Down, m, 0xffff_ffff);
  }
}
