/** A byte-addressed memory in which only some addresses are mapped, and 64-bit words in it. */
module Memory {
  import opened Base
  import opened Words

  const U64: nat := 0x1_0000_0000_0000_0000

  type u64 = x: int | 0 <= x < U64

  const WORD: nat := 8

  type Mem = map<nat, byte>

  ghost predicate Mapped(m: Mem, lo: nat, hi: nat) {
    forall x :: lo <= x < hi ==> x in m
  }

  /** `n` differs from `m` at most inside [lo, hi). */
  ghost predicate SameOutside(m: Mem, n: Mem, lo: nat, hi: nat) {
    m.Keys == n.Keys && forall x :: x in m && !(lo <= x < hi) ==> n[x] == m[x]
  }

  ghost predicate SameInside(m: Mem, n: Mem, lo: nat, hi: nat) {
    forall x :: lo <= x < hi ==> x in m && x in n && n[x] == m[x]
  }

  /** The bytes stored at [a, a + k). */
  function Data(m: Mem, a: nat, k: nat): (d: Bytes)
    requires Mapped(m, a, a + k)
    ensures |d| == k && forall i :: 0 <= i < k ==> d[i] == m[a + i]
  {
    seq(k, i requires 0 <= i < k => m[a + i])
  }

  /** The number in `k` bytes at `a`, least significant first. */
  function Get(m: Mem, a: nat, k: nat): nat
    requires Mapped(m, a, a + k)
    decreases k, a
  {
    if k == 0 then 0 else m[a] + 256 * Get(m, a + 1, k - 1)
  }

  function Put(m: Mem, a: nat, v: nat, k: nat): (n: Mem)
    requires Mapped(m, a, a + k)
    ensures SameOutside(m, n, a, a + k)
    decreases k, a
  {
    if k == 0 then m else Put(m[a := v % 256], a + 1, v / 256, k - 1)
  }

  lemma {:induction false} GetSame(m: Mem, n: Mem, a: nat, k: nat)
    requires Mapped(m, a, a + k) && SameInside(m, n, a, a + k)
    ensures Mapped(n, a, a + k) && Get(m, a, k) == Get(n, a, k)
    decreases k, a
  {
    if k > 0 {
      GetSame(m, n, a + 1, k - 1);
    }
  }

  lemma {:induction false} GetPut(m: Mem, a: nat, v: nat, k: nat)
    requires Mapped(m, a, a + k) && v < Exp256(k)
    ensures Mapped(Put(m, a, v, k), a, a + k) && Get(Put(m, a, v, k), a, k) == v
    decreases k, a
  {
    if k > 0 {
      var m' := m[a := v % 256];
      GetPut(m', a + 1, v / 256, k - 1);
      assert Put(m', a + 1, v / 256, k - 1)[a] == v % 256;
    }
  }

  function ReadWord(m: Mem, a: nat): nat
    requires Mapped(m, a, a + WORD)
  {
    Get(m, a, WORD)
  }

  function WriteWord(m: Mem, a: nat, v: u64): (n: Mem)
    requires Mapped(m, a, a + WORD)
    ensures SameOutside(m, n, a, a + WORD)
  {
    Put(m, a, v, WORD)
  }

  lemma WordWritten(m: Mem, a: nat, v: u64)
    requires Mapped(m, a, a + WORD)
    ensures Mapped(WriteWord(m, a, v), a, a + WORD) && ReadWord(WriteWord(m, a, v), a) == v
  {
    assert Exp256(2) == 0x1_0000;
    assert Exp256(4) == 0x1_0000_0000;
    assert Exp256(6) == 0x1_0000_0000_0000;
    assert Exp256(8) == U64;
    GetPut(m, a, v, WORD);
  }

  lemma WordKept(m: Mem, n: Mem, a: nat)
    requires Mapped(m, a, a + WORD) && SameInside(m, n, a, a + WORD)
    ensures Mapped(n, a, a + WORD) && ReadWord(n, a) == ReadWord(m, a)
  {
    GetSame(m, n, a, WORD);
  }

  lemma WordApart(m: Mem, n: Mem, lo: nat, hi: nat, a: nat)
    requires Mapped(m, a, a + WORD) && SameOutside(m, n, lo, hi) && (a + WORD <= lo || hi <= a)
    ensures Mapped(n, a, a + WORD) && ReadWord(n, a) == ReadWord(m, a)
  {
    GetSame(m, n, a, WORD);
  }
}
