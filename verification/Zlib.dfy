/**
 The zlib stream of xtask/src/fb_shot.rs: stored deflate blocks and an Adler-32 trailer, with the
 reader that RFC 1950 (section 2.2) and RFC 1951 (section 3.2.4) describe for such streams.
 */
module Zlib {
  import opened Base
  import opened Words

  const MAX_STORED: nat := 65535
  const ADLER_MOD: nat := 65521

  // ---------------------------------------------------------------- fixed-width numbers

  const WIDTH: nat := 4

  /** The low `k` bytes of a number, most significant first. */
  function BigEndian(n: nat, k: nat): (b: Bytes)
    ensures |b| == k
    decreases k
  {
    if k == 0 then [] else BigEndian(n / 256, k - 1) + [n % 256]
  }

  function FromBigEndian(b: Bytes): nat {
    if b == [] then 0 else FromBigEndian(b[..|b| - 1]) * 256 + b[|b| - 1]
  }

  lemma {:induction false} BigEndianRoundTrip(n: nat, k: nat)
    ensures FromBigEndian(BigEndian(n, k)) == n % Exp256(k)
    decreases k
  {
    if k > 0 {
      BigEndianRoundTrip(n / 256, k - 1);
      assert BigEndian(n, k)[..k - 1] == BigEndian(n / 256, k - 1);
      ModStep(n, Exp256(k - 1));
    }
  }

  function BE32(n: nat): (b: Bytes)
    ensures |b| == 4
  {
    BigEndian(n, WIDTH)
  }

  function FromBE32(b: Bytes): (n: nat)
    requires |b| == 4
  {
    FromBigEndian(b)
  }

  lemma BE32RoundTrip(n: nat)
    ensures FromBE32(BE32(n)) == n % 0x1_0000_0000
  {
    BigEndianRoundTrip(n, WIDTH);
    assert Exp256(1) == 256;
    assert Exp256(2) == 0x1_0000;
    assert Exp256(3) == 0x100_0000;
    assert Exp256(4) == 0x1_0000_0000;
  }

  /** The first byte is the highest. */
  lemma ByteWeights(b: Bytes, w: nat, x: nat, y: nat, z: nat)
    requires b == [w, x, y, z]
    ensures FromBE32(b) == 0x100_0000 * w + 0x1_0000 * x + 0x100 * y + z
  {
    assert b[..3][..2] == b[..2] && b[..2][..1] == b[..1] && b[..1][..0] == [];
    assert FromBigEndian(b[..1]) == w;
    assert FromBigEndian(b[..2]) == FromBigEndian(b[..1]) * 256 + x;
    assert FromBigEndian(b[..3]) == FromBigEndian(b[..2]) * 256 + y;
  }

  function LE16(n: nat): (b: Bytes)
    requires n < 0x1_0000
    ensures |b| == 2
  {
    [n % 256, n / 256]
  }

  function FromLE16(b: Bytes): (n: nat)
    requires |b| == 2
    ensures n < 0x1_0000
  {
    b[0] + (b[1] as int) * 256
  }

  // ---------------------------------------------------------------- Adler-32

  function Sum(d: Bytes): nat {
    if d == [] then 0 else Sum(d[..|d| - 1]) + d[|d| - 1]
  }

  /** The sum over all prefixes of one plus the bytes so far. */
  function SumOfSums(d: Bytes): nat {
    if d == [] then 0 else SumOfSums(d[..|d| - 1]) + 1 + Sum(d)
  }

  /** RFC 1950, section 2.2: both sums are taken modulo 65521 once, at the end. */
  function Adler(d: Bytes): (r: nat)
    ensures r < 0x1_0000_0000
  {
    (SumOfSums(d) % ADLER_MOD) * 0x1_0000 + (1 + Sum(d)) % ADLER_MOD
  }

  /** Every byte, and every byte times the number of bytes from it to the end. */
  function Total(d: Bytes): nat {
    if d == [] then 0 else d[0] + Total(d[1..])
  }

  function Weighted(d: Bytes): nat {
    if d == [] then 0 else |d| * d[0] + Weighted(d[1..])
  }

  lemma {:induction false} TotalSnoc(d: Bytes, b: byte)
    ensures Total(d + [b]) == Total(d) + b
    ensures Weighted(d + [b]) == Weighted(d) + Total(d) + b
  {
    if d != [] {
      TotalSnoc(d[1..], b);
      assert (d + [b])[1..] == d[1..] + [b];
      assert (|d| + 1) * d[0] == |d| * d[0] + d[0];
    }
  }

  lemma {:induction false} SumsAre(d: Bytes)
    ensures Sum(d) == Total(d) && SumOfSums(d) == |d| + Weighted(d)
  {
    if d != [] {
      var front, b := d[..|d| - 1], d[|d| - 1];
      assert d == front + [b];
      SumsAre(front);
      TotalSnoc(front, b);
    }
  }

  /** The checksum from its closed form: one plus all bytes, and as many ones as bytes plus each byte as often as it is
      summed, both modulo the largest prime below 65536. */
  lemma AdlerIs(d: Bytes)
    ensures Adler(d) == (|d| + Weighted(d)) % 65521 * 0x1_0000 + (1 + Total(d)) % 65521
  {
    SumsAre(d);
  }

  lemma ModAdd(x: nat, y: nat)
    ensures (x % ADLER_MOD + y) % ADLER_MOD == (x + y) % ADLER_MOD
  {
    var q := x / ADLER_MOD;
    assert x + y == x % ADLER_MOD + y + q * ADLER_MOD;
    ModShift(x % ADLER_MOD + y, q);
  }

  lemma {:induction false} ModShift(x: nat, q: nat)
    ensures (x + q * ADLER_MOD) % ADLER_MOD == x % ADLER_MOD
    decreases q
  {
    if q > 0 {
      ModShift(x + ADLER_MOD, q - 1);
      assert x + ADLER_MOD + (q - 1) * ADLER_MOD == x + q * ADLER_MOD;
      assert (x + ADLER_MOD) % ADLER_MOD == x % ADLER_MOD;
    }
  }

  /** The running sums are reduced at every byte and never reach 2^32. */
  method Adler32(d: Bytes) returns (r: nat)
    ensures r == Adler(d)
  {
    var a, b := 1, 0;
    for i := 0 to |d|
      invariant a == (1 + Sum(d[..i])) % ADLER_MOD
      invariant b == SumOfSums(d[..i]) % ADLER_MOD
    {
      assert d[..i + 1][..i] == d[..i];
      ModAdd(1 + Sum(d[..i]), d[i]);
      assert a + d[i] < 0x1_0000_0000;
      a := (a + d[i]) % ADLER_MOD;
      ModAdd(SumOfSums(d[..i]), a);
      ModAdd(1 + Sum(d[..i + 1]), SumOfSums(d[..i]));
      assert b + a < 0x1_0000_0000;
      b := (b + a) % ADLER_MOD;
    }
    assert d[..|d|] == d;
    r := b * 0x1_0000 + a;
  }

  // ---------------------------------------------------------------- writing

  function Header(d: Bytes): (h: Bytes)
    requires d != []
    ensures |h| == 5
  {
    var n := Min(|d|, MAX_STORED);
    [if |d| <= MAX_STORED then 1 else 0] + LE16(n) + LE16(0xffff - n)
  }

  function Blocks(d: Bytes): Bytes {
    if d == [] then []
    else Header(d) + d[..Min(|d|, MAX_STORED)] + Blocks(d[Min(|d|, MAX_STORED)..])
  }

  function Stream(d: Bytes): Bytes {
    [0x78, 0x01] + Blocks(d) + BE32(Adler(d))
  }

  lemma Regroup(a: Bytes, b: Bytes, c: Bytes)
    ensures a + (b + c) == (a + b) + c
  {
  }

  method ZlibStored(datos: Bytes) returns (out: Bytes)
    ensures out == Stream(datos)
  {
    out := [0x78, 0x01];
    var i := 0;
    assert datos[0..] == datos;
    while i < |datos|
      invariant 0 <= i <= |datos|
      invariant [0x78, 0x01] + Blocks(datos) == out + Blocks(datos[i..])
    {
      var n := Min(|datos| - i, 65535);
      var ultimo := if i + n >= |datos| then 1 else 0;
      ghost var rest := datos[i..];
      assert rest[..n] == datos[i..i + n] && rest[n..] == datos[i + n..];
      var block := [ultimo] + LE16(n) + LE16(0xffff - n) + datos[i..i + n];
      assert Blocks(rest) == block + Blocks(rest[n..]);
      Regroup(out, block, Blocks(rest[n..]));
      out := out + block;
      i := i + n;
    }
    var a := Adler32(datos);
    out := out + BE32(a);
  }

  // ---------------------------------------------------------------- reading

  datatype Block = Block(final: bool, data: Bytes)

  function ReadBlocks(z: Bytes): (r: Option<(seq<Block>, Bytes)>) {
    if |z| < 5 || z[0] / 2 % 4 != 0 then None
    else
      var len := FromLE16(z[1..3]);
      if FromLE16(z[3..5]) != 0xffff - len || |z| < 5 + len then None
      else
        var block := Block(z[0] % 2 == 1, z[5..5 + len]);
        if block.final then Some(([block], z[5 + len..]))
        else
          match ReadBlocks(z[5 + len..])
          case None => None
          case Some((more, rest)) => Some(([block] + more, rest))
  }

  function Contents(blocks: seq<Block>): Bytes {
    if blocks == [] then [] else blocks[0].data + Contents(blocks[1..])
  }

  /** Compression method 8, window at most 32 KiB, header check, no preset dictionary. */
  predicate HeaderOk(cmf: byte, flg: byte) {
    cmf % 16 == 8 && cmf / 16 <= 7 && ((cmf as int) * 256 + flg) % 31 == 0 && flg / 32 % 2 == 0
  }

  function InflateBody(z: Bytes): Option<Bytes> {
    match ReadBlocks(z)
    case None => None
    case Some((blocks, rest)) =>
      if |rest| == 4 && FromBE32(rest) == Adler(Contents(blocks)) then Some(Contents(blocks)) else None
  }

  function Inflate(z: Bytes): Option<Bytes> {
    if |z| < 2 || !HeaderOk(z[0], z[1]) then None else InflateBody(z[2..])
  }

  /** How the written blocks read back: all non-empty, only the last one final, together the data. */
  ghost predicate WellBlocked(blocks: seq<Block>, d: Bytes) {
    && blocks != [] && Contents(blocks) == d
    && forall i :: 0 <= i < |blocks| ==>
         1 <= |blocks[i].data| <= MAX_STORED && (blocks[i].final <==> i == |blocks| - 1)
  }

  lemma FirstBlock(d: Bytes, tail: Bytes)
    requires d != []
    ensures var n := Min(|d|, MAX_STORED);
            var z := Header(d) + d[..n] + tail;
            && |z| == 5 + n + |tail| && z[0] == (if |d| <= MAX_STORED then 1 else 0)
            && FromLE16(z[1..3]) == n && FromLE16(z[3..5]) == 0xffff - n
            && z[5..5 + n] == d[..n] && z[5 + n..] == tail
  {
    var n := Min(|d|, MAX_STORED);
    var z := Header(d) + d[..n] + tail;
    assert z[1..3] == LE16(n) && z[3..5] == LE16(0xffff - n);
  }

  lemma ReadOne(d: Bytes, tail: Bytes, n: nat, z: Bytes, block: Block)
    requires d != [] && n == Min(|d|, MAX_STORED) && z == Header(d) + d[..n] + tail && block == Block(|d| <= MAX_STORED, d[..n])
    ensures ReadBlocks(z) ==
            if block.final then Some(([block], tail))
            else match ReadBlocks(tail) case None => None case Some((more, rest)) => Some(([block] + more, rest))
  {
    FirstBlock(d, tail);
  }

  lemma {:induction false} BlocksRead(d: Bytes, rest: Bytes) returns (blocks: seq<Block>)
    requires d != []
    ensures ReadBlocks(Blocks(d) + rest) == Some((blocks, rest))
    ensures WellBlocked(blocks, d)
  {
    var n := Min(|d|, MAX_STORED);
    var tail := Blocks(d[n..]) + rest;
    assert Blocks(d) + rest == Header(d) + d[..n] + tail;
    ReadOne(d, tail, n, Header(d) + d[..n] + tail, Block(|d| <= MAX_STORED, d[..n]));
    if |d| <= MAX_STORED {
      assert d[n..] == [] && d[..n] == d;
      assert tail == rest;
      blocks := [Block(true, d)];
      assert blocks[1..] == [];
    } else {
      var more := BlocksRead(d[n..], rest);
      blocks := [Block(false, d[..n])] + more;
      Prepended(d[..n], more, d[n..]);
      assert d[..n] + d[n..] == d;
    }
  }

  lemma Prepended(first: Bytes, more: seq<Block>, d: Bytes)
    requires WellBlocked(more, d) && 1 <= |first| <= MAX_STORED
    ensures WellBlocked([Block(false, first)] + more, first + d)
  {
    var blocks := [Block(false, first)] + more;
    assert blocks[1..] == more;
    forall i | 0 <= i < |blocks|
      ensures 1 <= |blocks[i].data| <= MAX_STORED && (blocks[i].final <==> i == |blocks| - 1)
    {
      if i > 0 {
        assert blocks[i] == more[i - 1];
      }
    }
  }

  lemma BodyReadsBack(d: Bytes, trailer: Bytes)
    requires |trailer| == 4 && FromBE32(trailer) == Adler(d)
    ensures InflateBody(Blocks(d) + trailer) == if d != [] then Some(d) else None
  {
    if d != [] {
      var blocks := BlocksRead(d, trailer);
    } else {
      assert Blocks(d) + trailer == trailer;
    }
  }

  /** A stream reads back exactly when there was something to write: an empty one has no final block. */
  lemma StreamReadsBack(d: Bytes)
    ensures Inflate(Stream(d)) == if d != [] then Some(d) else None
  {
    assert Stream(d)[2..] == Blocks(d) + BE32(Adler(d));
    assert HeaderOk(0x78, 0x01);
    BE32RoundTrip(Adler(d));
    BodyReadsBack(d, BE32(Adler(d)));
  }

  // ---------------------------------------------------------------- no stored stream is shorter

  function BlockCount(n: nat): nat {
    if n == 0 then 0 else 1 + BlockCount(n - Min(n, MAX_STORED))
  }

  lemma {:induction false} BlocksLength(d: Bytes)
    ensures |Blocks(d)| == |d| + 5 * BlockCount(|d|)
  {
    if d != [] {
      BlocksLength(d[Min(|d|, MAX_STORED)..]);
    }
  }

  lemma {:induction false} BlockCountIs(n: nat)
    ensures BlockCount(n) == (n + MAX_STORED - 1) / MAX_STORED
  {
    if n > MAX_STORED {
      BlockCountIs(n - MAX_STORED);
      assert n + MAX_STORED - 1 == (n - MAX_STORED + MAX_STORED - 1) + MAX_STORED;
    }
  }

  /** The length of the stream for `n` bytes: five more for every block begun, and six. */
  function StreamSize(n: nat): nat {
    n + 5 * ((n + MAX_STORED - 1) / MAX_STORED) + 6
  }

  lemma StreamLength(d: Bytes)
    ensures |Stream(d)| == StreamSize(|d|)
  {
    BlocksLength(d);
    BlockCountIs(|d|);
  }

  lemma {:induction false} BlockCountMonotone(n: nat, k: nat)
    requires n <= k * MAX_STORED
    ensures BlockCount(n) <= k
  {
    if n > 0 {
      BlockCountMonotone(n - Min(n, MAX_STORED), k - 1);
    }
  }

  lemma {:induction false} ReadLength(z: Bytes)
    requires ReadBlocks(z).Some?
    ensures var (blocks, rest) := ReadBlocks(z).value;
            && |z| == |rest| + |Contents(blocks)| + 5 * |blocks|
            && |Contents(blocks)| <= |blocks| * MAX_STORED
  {
    var len := FromLE16(z[1..3]);
    var (blocks, rest) := ReadBlocks(z).value;
    if z[0] % 2 == 1 {
      assert blocks[1..] == [];
    } else {
      ReadLength(z[5 + len..]);
      var (more, r) := ReadBlocks(z[5 + len..]).value;
      assert blocks[1..] == more;
    }
  }

  /** Among the stored streams that read back as `d`, none is shorter than the one written. */
  lemma StreamShortest(z: Bytes, d: Bytes)
    requires Inflate(z).Some? && |Inflate(z).value| == |d|
    ensures |Stream(d)| <= |z|
  {
    ReadLength(z[2..]);
    BlocksLength(d);
    var (blocks, rest) := ReadBlocks(z[2..]).value;
    BlockCountMonotone(|d|, |blocks|);
  }
}
