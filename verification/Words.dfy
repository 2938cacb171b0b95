/** Numbers as little-endian bytes, and the arithmetic of whole multiples. */
module Words {
  import opened Base

  type Word = u: int | 0 <= u < 0x1_0000

  function FromLE(b: Bytes): nat {
    if b == [] then 0 else b[0] + 256 * FromLE(b[1..])
  }

  function LE(n: nat, w: nat): (b: Bytes)
    ensures |b| == w
    decreases w, n
  {
    if w == 0 then [] else [n % 256] + LE(n / 256, w - 1)
  }

  function Exp256(w: nat): (e: nat)
    ensures e > 0
  {
    if w == 0 then 1 else 256 * Exp256(w - 1)
  }

  lemma {:induction false} LERoundTrip(n: nat, w: nat)
    requires n < Exp256(w)
    ensures FromLE(LE(n, w)) == n
    decreases w
  {
    if w > 0 {
      LERoundTrip(n / 256, w - 1);
      assert LE(n, w)[1..] == LE(n / 256, w - 1);
    }
  }

  lemma {:induction false} FromLEBound(b: Bytes)
    ensures FromLE(b) < Exp256(|b|)
  {
    if b != [] {
      FromLEBound(b[1..]);
    }
  }

  lemma ExpValues()
    ensures Exp256(2) == 0x1_0000 && Exp256(4) == 0x1_0000_0000
  {
    assert Exp256(1) == 256;
    assert Exp256(3) == 0x100_0000;
  }

  lemma {:induction false} LEMod(n: nat, w: nat)
    ensures FromLE(LE(n, w)) == n % Exp256(w)
    decreases w
  {
    if w > 0 {
      LEMod(n / 256, w - 1);
      assert LE(n, w)[1..] == LE(n / 256, w - 1);
      ModStep(n, Exp256(w - 1));
    }
  }

  /** The first byte is the lowest. */
  lemma PairWeights(b: Bytes, lo: nat, hi: nat)
    requires |b| == 2 && lo == b[0] && hi == b[1]
    ensures FromLE(b) == lo + 0x100 * hi
  {
    assert FromLE(b[1..]) == hi + 256 * FromLE(b[1..][1..]);
  }

  lemma QuadWeights(b: Bytes)
    requires |b| == 4
    ensures FromLE(b) == FromLE(b[..2]) + 0x1_0000 * FromLE(b[2..])
  {
    var lo := b[..2];
    PairWeights(lo, b[0], b[1]);
    assert b[1..][1..] == b[2..];
    assert FromLE(b[1..]) == b[1] + 256 * FromLE(b[2..]);
    assert FromLE(b) == b[0] + 256 * FromLE(b[1..]);
  }

  lemma ModStep(n: nat, e: nat)
    requires e > 0
    ensures n % 256 + 256 * (n / 256 % e) == n % (256 * e)
  {
    var q, r := n / 256 / e, n / 256 % e;
    assert n == 256 * (q * e + r) + n % 256;
    assert n == q * (256 * e) + (256 * r + n % 256);
    Remainder(n, q, 256 * e, 256 * r + n % 256);
  }

  lemma Remainder(n: nat, q: nat, d: nat, r: nat)
    requires n == q * d + r && r < d
    ensures n % d == r
  {
    var q', r' := n / d, n % d;
    assert n == q' * d + r';
    if q' < q {
      MulMono(q' + 1, q, d);
    } else if q < q' {
      MulMono(q + 1, q', d);
    }
  }

  lemma MulMono(a: nat, b: nat, d: nat)
    requires a <= b
    ensures a * d <= b * d
  {
  }

  lemma Quotient(q: nat, d: nat)
    requires d > 0
    ensures q * d / d == q && q * d % d == 0
  {
    var q', r := q * d / d, q * d % d;
    assert q * d == q' * d + r;
    if q' < q {
      MulMono(q' + 1, q, d);
    } else if q < q' {
      MulMono(q + 1, q', d);
    }
  }

  lemma ClusterHalves(c: nat)
    requires c < 0x1_0000_0000
    ensures FromLE(LE(c / 0x1_0000, 2)) * 0x1_0000 + FromLE(LE(c, 2)) == c
  {
    LEMod(c / 0x1_0000, 2);
    LEMod(c, 2);
    ExpValues();
  }
}
