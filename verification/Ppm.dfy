/**
 The PPM (P6) reader of xtask/src/fb_shot.rs: three decimal fields separated by white space and
 comments, one separator, then the pixels. Sizes are 64-bit; a size that does not fit is an
 error, as it is in a build with overflow checks.
 */
module Ppm {
  import opened Base
  import opened Utf16

  const USIZE: nat := 0x1_0000_0000_0000_0000

  /** `PastEnd` is a header that ends with the file: wording its error subtracts below zero, which a checked build does not
      survive. */
  datatype Error = NotP6 | BadField | Overflow | Truncated | PastEnd

  datatype Pixmap = Pixmap(w: nat, h: nat, pix: Bytes)

  /** White space among the first 256 characters. */
  predicate IsSpace(b: byte) {
    9 <= b <= 13 || b == 32 || b == 0x85 || b == 0xa0
  }

  function SkipSpace(d: Bytes, pos: nat): (p: nat)
    requires pos <= |d|
    ensures pos <= p <= |d|
    ensures forall k :: pos <= k < p ==> IsSpace(d[k])
    ensures p < |d| ==> !IsSpace(d[p])
    decreases |d| - pos
  {
    if pos < |d| && IsSpace(d[pos]) then SkipSpace(d, pos + 1) else pos
  }

  function LineEnd(d: Bytes, pos: nat): (p: nat)
    requires pos <= |d|
    ensures pos <= p <= |d|
    ensures p < |d| ==> d[p] == 10
    decreases |d| - pos
  {
    if pos < |d| && d[pos] != 10 then LineEnd(d, pos + 1) else pos
  }

  function TokenEnd(d: Bytes, pos: nat): (p: nat)
    requires pos <= |d|
    ensures pos <= p <= |d|
    ensures forall k :: pos <= k < p ==> !IsSpace(d[k])
    ensures p < |d| ==> IsSpace(d[p])
    decreases |d| - pos
  {
    if pos < |d| && !IsSpace(d[pos]) then TokenEnd(d, pos + 1) else pos
  }

  predicate IsDigit(b: byte) {
    48 <= b <= 57
  }

  function Digits(t: Bytes): Option<nat> {
    if t == [] then Some(0)
    else if !IsDigit(t[|t| - 1]) then None
    else
      match Digits(t[..|t| - 1])
      case None => None
      case Some(n) => Some((n as int) * 10 + (t[|t| - 1] - 48))
  }

  /** `str::parse::<usize>`: an optional plus sign, at least one digit, below 2^64. A token that is not
      UTF-8 is an error too, and so has no digits. */
  function ParseNumber(t: Bytes): Option<nat> {
    var digits := if |t| > 1 && t[0] == 43 then t[1..] else t;
    if digits == [] then None
    else
      match Digits(digits)
      case None => None
      case Some(n) => if n < USIZE then Some(n) else None
  }

  /** The next field at or after `pos`, and where it ends. */
  function NextField(d: Bytes, pos: nat): (r: Option<(nat, nat)>)
    requires pos <= |d|
    ensures r.Some? ==> pos <= r.value.1 <= |d|
    decreases |d| - pos
  {
    var p := SkipSpace(d, pos);
    if p < |d| && d[p] == 35 then NextField(d, LineEnd(d, p))
    else
      var e := TokenEnd(d, p);
      match ParseNumber(d[p..e])
      case None => None
      case Some(n) => Some((n, e))
  }

  /** The three fields, of which `done` were read before `pos`, and where the last one ends. */
  function Fields(d: Bytes, pos: nat, done: seq<nat>): (r: Option<(seq<nat>, nat)>)
    requires pos <= |d| && |done| <= 3
    ensures r.Some? ==> |r.value.0| == 3 && pos <= r.value.1 <= |d|
    decreases 3 - |done|
  {
    if |done| == 3 then Some((done, pos))
    else
      match NextField(d, pos)
      case None => None
      case Some((v, e)) => Fields(d, e, done + [v])
  }

  /** The pixels after a header that ends at `p`, checked in 64 bits. */
  function Pixels(d: Bytes, w: nat, h: nat, p: nat): (r: Result<Pixmap, Error>)
    ensures r.Ok? ==> r.value.w == w && r.value.h == h && |r.value.pix| == w * h * 3
  {
    if w * h >= USIZE then Err(Overflow)
    else
      var n := w * h * 3;
      if n >= USIZE then Err(Overflow)
      else if p + 1 + n >= USIZE then Err(Overflow)
      else if |d| < p + 1 then Err(PastEnd)
      else if |d| < p + 1 + n then Err(Truncated)
      else Ok(Pixmap(w, h, d[p + 1..p + 1 + n]))
  }

  function ReadPpm(d: Bytes): (r: Result<Pixmap, Error>)
    ensures r.Ok? ==> |r.value.pix| == r.value.w * r.value.h * 3
  {
    if |d| < 2 || d[..2] != [80, 54] then Err(NotP6)
    else
      match Fields(d, 2, [])
      case None => Err(BadField)
      case Some((f, p)) => Pixels(d, f[0], f[1], p)
  }

  method LeerPpm(d: Bytes) returns (r: Result<Pixmap, Error>)
    ensures r == ReadPpm(d)
  {
    if |d| < 2 || d[..2] != [80, 54] {
      return Err(NotP6);
    }
    var pos := 2;
    var campos: seq<nat> := [];
    while |campos| < 3
      invariant |campos| <= 3 && 2 <= pos <= |d|
      invariant Fields(d, 2, []) == Fields(d, pos, campos)
      decreases 3 - |campos|, |d| - pos
    {
      ghost var at := pos;
      pos := SaltarBlancos(d, pos);
      if pos < |d| && d[pos] == 35 {
        pos := SaltarComentario(d, pos);
        assert NextField(d, at) == NextField(d, pos);
        continue;
      }
      var ini := pos;
      pos := FinDePalabra(d, pos);
      var t := ParseNumber(d[ini..pos]);
      if t.None? {
        return Err(BadField);
      }
      assert NextField(d, at) == Some((t.value, pos));
      campos := campos + [t.value];
    }
    r := LeerPixeles(d, campos[0], campos[1], pos);
  }

  method SaltarBlancos(d: Bytes, from: nat) returns (pos: nat)
    requires from <= |d|
    ensures pos == SkipSpace(d, from)
  {
    pos := from;
    while pos < |d| && IsSpace(d[pos])
      invariant from <= pos <= |d| && SkipSpace(d, from) == SkipSpace(d, pos)
    {
      pos := pos + 1;
    }
  }

  method SaltarComentario(d: Bytes, from: nat) returns (pos: nat)
    requires from <= |d|
    ensures pos == LineEnd(d, from)
  {
    pos := from;
    while pos < |d| && d[pos] != 10
      invariant from <= pos <= |d| && LineEnd(d, from) == LineEnd(d, pos)
    {
      pos := pos + 1;
    }
  }

  method FinDePalabra(d: Bytes, from: nat) returns (pos: nat)
    requires from <= |d|
    ensures pos == TokenEnd(d, from)
  {
    pos := from;
    while pos < |d| && !IsSpace(d[pos])
      invariant from <= pos <= |d| && TokenEnd(d, from) == TokenEnd(d, pos)
    {
      pos := pos + 1;
    }
  }

  method LeerPixeles(d: Bytes, w: nat, h: nat, p: nat) returns (r: Result<Pixmap, Error>)
    ensures r == Pixels(d, w, h, p)
  {
    var pos := p + 1;
    if w * h >= USIZE {
      return Err(Overflow);
    }
    var n := w * h * 3;
    if n >= USIZE {
      return Err(Overflow);
    }
    if pos + n >= USIZE {
      return Err(Overflow);
    }
    if |d| < pos + n {
      return Err(if |d| < pos then PastEnd else Truncated);
    }
    r := Ok(Pixmap(w, h, d[pos..pos + n]));
  }

  // ---------------------------------------------------------------- what QEMU writes

  function Decimal(n: nat): (t: Bytes)
    ensures t != [] && forall i :: 0 <= i < |t| ==> IsDigit(t[i])
  {
    if n < 10 then [48 + n] else Decimal(n / 10) + [48 + n % 10]
  }

  lemma {:induction false} DecimalParses(n: nat)
    ensures Digits(Decimal(n)) == Some(n)
  {
    if n >= 10 {
      DecimalParses(n / 10);
      assert Decimal(n)[..|Decimal(n)| - 1] == Decimal(n / 10);
    } else {
      assert Decimal(n)[..0] == [];
    }
  }

  /** The screen dump of an image: P6, the size, the maximum 255, then the pixels. */
  function ScreenDump(w: nat, h: nat, pix: Bytes): Bytes {
    [80, 54, 10] + Decimal(w) + [32] + Decimal(h) + [10] + Decimal(255) + [10] + pix
  }

  /** A number between separators, or after one at the end of the file, is read as itself. */
  lemma FieldReads(d: Bytes, start: nat, n: nat, e: nat)
    requires start + 1 + |Decimal(n)| == e <= |d| && n < USIZE
    requires d[start + 1..e] == Decimal(n) && IsSpace(d[start]) && (e < |d| ==> IsSpace(d[e]))
    ensures NextField(d, start) == Some((n, e))
  {
    assert d[start + 1] == Decimal(n)[0];
    assert SkipSpace(d, start) == start + 1;
    TokenIs(d, start + 1, e, Decimal(n));
    DecimalParses(n);
  }

  lemma TokenIs(d: Bytes, p: nat, e: nat, t: Bytes)
    requires p <= e <= |d| && d[p..e] == t && (e < |d| ==> IsSpace(d[e]))
    requires forall i :: 0 <= i < |t| ==> IsDigit(t[i])
    ensures TokenEnd(d, p) == e
  {
    forall k | p <= k < e
      ensures !IsSpace(d[k])
    {
      assert d[k] == t[k - p];
    }
    var q := TokenEnd(d, p);
  }

  lemma Fewer(w: nat, h: nat)
    ensures w * h <= w * h * 3
  {
  }

  /** The header alone: it ends with the last digit of the maximum. */
  function Header(w: nat, h: nat): Bytes {
    [80, 54, 10] + Decimal(w) + [32] + Decimal(h) + [10] + Decimal(255)
  }

  /** The error message subtracts below zero exactly when the three fields are read up to the end of the file and the sizes
      do not overflow. */
  lemma PastEndIff(d: Bytes)
    ensures ReadPpm(d) == Err(PastEnd) <==>
            && 2 <= |d| && d[..2] == [80, 54] && Fields(d, 2, []).Some? && Fields(d, 2, []).value.1 == |d|
            && var f := Fields(d, 2, []).value.0; f[0] * f[1] * 3 + |d| + 1 < USIZE
  {
    if 2 <= |d| && Fields(d, 2, []).Some? {
      var f := Fields(d, 2, []).value.0;
      Fewer(f[0], f[1]);
    }
  }

  /** As in every screen dump that is cut after its header. */
  lemma HeaderOnly(w: nat, h: nat)
    requires w < USIZE && h < USIZE && w * h * 3 + |Header(w, h)| + 1 < USIZE
    ensures ReadPpm(Header(w, h)) == Err(PastEnd)
  {
    var d := Header(w, h);
    var b1 := [80, 54, 10] + Decimal(w) + [32];
    var b2 := b1 + Decimal(h) + [10];
    var p1, p2 := |b1| - 1, |b2| - 1;
    var after1 := [10] + Decimal(255);
    assert d == [80, 54, 10] + Decimal(w) + ([32] + Decimal(h) + after1);
    assert d == b1 + Decimal(h) + after1;
    assert d == b2 + Decimal(255) + [];
    FieldAt(d, [80, 54, 10], w, [32] + Decimal(h) + after1, 2, p1);
    FieldAt(d, b1, h, after1, p1, p2);
    FieldAt(d, b2, 255, [], p2, |d|);
    ThreeFields(d, p1, p2, |d|, w, h, 255);
    PastEndIff(d);
  }

  /** A number after a separator and before another or the end. */
  lemma FieldAt(d: Bytes, a: Bytes, n: nat, b: Bytes, start: nat, e: nat)
    requires d == a + Decimal(n) + b && a != [] && IsSpace(a[|a| - 1]) && (b != [] ==> IsSpace(b[0])) && n < USIZE
    requires start == |a| - 1 && e == |a| + |Decimal(n)|
    ensures e <= |d| && NextField(d, start) == Some((n, e))
  {
    Inside(a, Decimal(n), b);
    FieldReads(d, start, n, e);
  }

  lemma Inside(a: Bytes, b: Bytes, c: Bytes)
    ensures (a + b + c)[|a|..|a| + |b|] == b
    ensures (a + b + c)[..|a|] == a
  {
  }

  lemma ThreeFields(d: Bytes, p1: nat, p2: nat, p3: nat, f0: nat, f1: nat, f2: nat)
    requires 2 <= |d| && p1 <= |d| && p2 <= |d| && p3 <= |d|
    requires NextField(d, 2) == Some((f0, p1)) && NextField(d, p1) == Some((f1, p2)) && NextField(d, p2) == Some((f2, p3))
    ensures Fields(d, 2, []) == Some(([f0, f1, f2], p3))
  {
    assert [] + [f0] == [f0] && [f0] + [f1] == [f0, f1] && [f0, f1] + [f2] == [f0, f1, f2];
    assert Fields(d, p2, [f0, f1]) == Some(([f0, f1, f2], p3));
    assert Fields(d, p1, [f0]) == Some(([f0, f1, f2], p3));
  }


  // ---------------------------------------------------------------- headers with white space and comments

  /** What may stand between fields: a white space character, or a comment to the end of its line. */
  datatype Blank = Space(b: byte) | Comment(text: Bytes)

  predicate BlankOk(b: Blank) {
    match b
    case Space(c) => c in {9, 10, 11, 12, 13, 32, 0x85, 0xa0}
    case Comment(text) => 10 !in text
  }

  function BlankBytes(b: Blank): Bytes {
    match b
    case Space(c) => [c]
    case Comment(text) => Ascii("#") + text + Ascii("\n")
  }

  function Gap(bs: seq<Blank>): Bytes {
    if bs == [] then [] else BlankBytes(bs[0]) + Gap(bs[1..])
  }

  /** What is left of the file at `pos`. */
  predicate Rest(d: Bytes, pos: nat, s: Bytes) {
    pos <= |d| && d[pos..] == s
  }

  lemma RestStep(d: Bytes, pos: nat, e: nat, a: Bytes, b: Bytes)
    requires Rest(d, pos, a + b) && e == pos + |a|
    ensures Rest(d, e, b) && d[pos..e] == a
  {
    assert d[pos..][|a|..] == b && d[pos..][..|a|] == a;
  }

  lemma SpaceStep(d: Bytes, pos: nat, next: nat)
    requires pos < next == pos + 1 <= |d| && IsSpace(d[pos])
    ensures NextField(d, pos) == NextField(d, next)
  {
    assert SkipSpace(d, pos) == SkipSpace(d, next);
  }

  lemma CommentStep(d: Bytes, pos: nat, e: nat, next: nat)
    requires pos < e < next == e + 1 <= |d| && d[pos] == 35 && d[e] == 10 && forall k :: pos <= k < e ==> d[k] != 10
    ensures NextField(d, pos) == NextField(d, next)
  {
    LineEndIs(d, pos, e);
    assert SkipSpace(d, pos) == pos;
    SpaceStep(d, e, next);
  }

  lemma {:induction false} LineEndIs(d: Bytes, pos: nat, e: nat)
    requires pos <= e < |d| && d[e] == 10 && forall k :: pos <= k < e ==> d[k] != 10
    ensures LineEnd(d, pos) == e
    decreases e - pos
  {
    if pos < e {
      LineEndIs(d, pos + 1, e);
    }
  }

  lemma OneBlank(d: Bytes, pos: nat, e: nat, b: Blank)
    requires pos <= e <= |d| && d[pos..e] == BlankBytes(b) && BlankOk(b)
    ensures NextField(d, pos) == NextField(d, e)
  {
    var s := d[pos..e];
    assert forall k :: pos <= k < e ==> d[k] == s[k - pos];
    match b
    case Space(_) =>
      assert e == pos + |s| == pos + 1;
      SpaceStep(d, pos, e);
    case Comment(text) =>
      CommentBytes(text, s);
      CommentStep(d, pos, e - 1, e);
  }

  lemma CommentBytes(text: Bytes, s: Bytes)
    requires s == BlankBytes(Comment(text)) && 10 !in text
    ensures |s| >= 2 && s[0] == 35 && s[|s| - 1] == 10 && forall k :: 0 <= k < |s| - 1 ==> s[k] != 10
  {
    assert Ascii("#") == [35] && Ascii("\n") == [10];
    forall k | 0 <= k < |s| - 1
      ensures s[k] != 10
    {
      assert k > 0 ==> s[k] == text[k - 1];
    }
  }

  lemma {:induction false} GapSkipped(d: Bytes, pos: nat, e: nat, g: seq<Blank>)
    requires pos <= e <= |d| && d[pos..e] == Gap(g) && forall b :: b in g ==> BlankOk(b)
    ensures NextField(d, pos) == NextField(d, e)
    decreases |g|
  {
    if g == [] {
      assert |d[pos..e]| == 0;
    } else {
      var mid := pos + |BlankBytes(g[0])|;
      Split(d, pos, mid, e, BlankBytes(g[0]), Gap(g[1..]));
      OneBlank(d, pos, mid, g[0]);
      GapSkipped(d, mid, e, g[1..]);
    }
  }

  lemma Split(d: Bytes, pos: nat, mid: nat, e: nat, a: Bytes, b: Bytes)
    requires pos <= e <= |d| && d[pos..e] == a + b && mid == pos + |a|
    ensures mid <= e && d[pos..mid] == a && d[mid..e] == b
  {
    assert d[pos..e][..|a|] == a && d[pos..e][|a|..] == b;
  }

  lemma NumberThere(d: Bytes, q: nat, e: nat, n: nat)
    requires q <= e <= |d| && d[q..e] == Decimal(n) && n < USIZE && (e < |d| ==> IsSpace(d[e]))
    ensures NextField(d, q) == Some((n, e))
  {
    assert d[q] == d[q..e][0] == Decimal(n)[0];
    assert SkipSpace(d, q) == q;
    TokenIs(d, q, e, Decimal(n));
    DecimalParses(n);
  }

  /** A number behind a gap, before a space. */
  lemma FieldBehind(d: Bytes, pos: nat, g: seq<Blank>, n: nat, after: Bytes) returns (e: nat)
    requires Rest(d, pos, Gap(g) + (Decimal(n) + after)) && (forall b :: b in g ==> BlankOk(b))
    requires n < USIZE && after != [] && IsSpace(after[0])
    ensures e <= |d| && NextField(d, pos) == Some((n, e)) && Rest(d, e, after)
  {
    var q := pos + |Gap(g)|;
    e := q + |Decimal(n)|;
    RestStep(d, pos, q, Gap(g), Decimal(n) + after);
    RestStep(d, q, e, Decimal(n), after);
    FieldOver(d, pos, q, e, g, n, after);
  }

  lemma FieldOver(d: Bytes, pos: nat, q: nat, e: nat, g: seq<Blank>, n: nat, after: Bytes)
    requires pos <= q <= e <= |d| && d[pos..q] == Gap(g) && d[q..e] == Decimal(n) && d[e..] == after
    requires (forall b :: b in g ==> BlankOk(b)) && n < USIZE && after != [] && IsSpace(after[0])
    ensures NextField(d, pos) == Some((n, e))
  {
    GapSkipped(d, pos, q, g);
    assert d[e] == d[e..][0];
    NumberThere(d, q, e, n);
  }

  /** White space and comments in front of the fields, behind each of the first two. */
  predicate GapsOk(g1: seq<Blank>, g2: seq<Blank>, g3: seq<Blank>) {
    && (forall b :: b in g1 ==> BlankOk(b)) && (forall b :: b in g2 ==> BlankOk(b)) && (forall b :: b in g3 ==> BlankOk(b))
    && g2 != [] && g2[0].Space? && g3 != [] && g3[0].Space?
  }

  lemma GapSpace(g: seq<Blank>, rest: Bytes)
    requires g != [] && g[0].Space? && BlankOk(g[0])
    ensures Gap(g) + rest != [] && IsSpace((Gap(g) + rest)[0])
  {
    assert (Gap(g) + rest)[0] == g[0].b;
  }

  /** A file of that form reads as its image, whatever the third number and the bytes behind the pixels. */
  lemma PpmReads(d: Bytes, g1: seq<Blank>, w: nat, g2: seq<Blank>, h: nat, g3: seq<Blank>, max: nat, sep: byte, pix: Bytes, extra: Bytes)
    requires GapsOk(g1, g2, g3) && BlankOk(Space(sep)) && w < USIZE && h < USIZE && max < USIZE && |pix| == w * h * 3
    requires d == Ascii("P6") + (Gap(g1) + (Decimal(w) + (Gap(g2) + (Decimal(h) + (Gap(g3) + (Decimal(max) + ([sep] + pix + extra)))))))
    requires |d| < USIZE
    ensures ReadPpm(d) == Ok(Pixmap(w, h, pix))
  {
    var t3 := [sep] + pix + extra;
    var t2 := Gap(g3) + (Decimal(max) + t3);
    var t1 := Gap(g2) + (Decimal(h) + t2);
    assert d[..2] == [80, 54] && d[2..] == Gap(g1) + (Decimal(w) + t1);
    GapSpace(g2, Decimal(h) + t2);
    GapSpace(g3, Decimal(max) + t3);
    FieldsRead(d, g1, w, g2, h, g3, max, t1, t2, t3, pix, sep, extra);
  }

  lemma FieldsRead(d: Bytes, g1: seq<Blank>, w: nat, g2: seq<Blank>, h: nat, g3: seq<Blank>, max: nat,
                   t1: Bytes, t2: Bytes, t3: Bytes, pix: Bytes, sep: byte, extra: Bytes)
    requires GapsOk(g1, g2, g3) && w < USIZE && h < USIZE && max < USIZE && |pix| == w * h * 3
    requires |d| < USIZE && 2 <= |d| && d[..2] == [80, 54] && Rest(d, 2, Gap(g1) + (Decimal(w) + t1))
    requires t1 == Gap(g2) + (Decimal(h) + t2) && t2 == Gap(g3) + (Decimal(max) + t3) && t3 == [sep] + pix + extra
    requires t1 != [] && IsSpace(t1[0]) && t2 != [] && IsSpace(t2[0]) && IsSpace(sep)
    ensures ReadPpm(d) == Ok(Pixmap(w, h, pix))
  {
    var p1 := FieldBehind(d, 2, g1, w, t1);
    var p2 := FieldBehind(d, p1, g2, h, t2);
    var p3 := FieldBehind(d, p2, g3, max, t3);
    ThreeFields(d, p1, p2, p3, w, h, max);
    Fewer(w, h);
    PixelsThere(d, w, h, p3, sep, pix, extra);
    ReadsAs(d, [w, h, max], p3);
  }

  lemma ReadsAs(d: Bytes, f: seq<nat>, p: nat)
    requires 2 <= |d| && d[..2] == [80, 54] && |f| == 3 && Fields(d, 2, []) == Some((f, p))
    ensures ReadPpm(d) == Pixels(d, f[0], f[1], p)
  {
  }

  lemma PixelsThere(d: Bytes, w: nat, h: nat, p: nat, sep: byte, pix: Bytes, extra: Bytes)
    requires Rest(d, p, [sep] + pix + extra) && |d| < USIZE && |pix| == w * h * 3 && w * h <= |pix|
    ensures Pixels(d, w, h, p) == Ok(Pixmap(w, h, pix))
  {
    assert |d[p..]| == 1 + |pix| + |extra|;
    assert d[p + 1..p + 1 + |pix|] == d[p..][1..1 + |pix|] == pix;
  }

  lemma OneSpace(c: byte)
    ensures Gap([Space(c)]) == [c]
  {
    assert [Space(c)][1..] == [];
  }

  lemma DumpShape(w: Bytes, h: Bytes, max: Bytes, pix: Bytes)
    ensures [80, 54, 10] + w + [32] + h + [10] + max + [10] + pix
         == Ascii("P6") + ([10] + (w + ([32] + (h + ([10] + (max + ([10] + pix + [])))))))
  {
    assert Ascii("P6") + [10] == [80, 54, 10];
    assert [10] + pix + [] == [10] + pix;
  }

  /** A screen dump reads back as its image. */
  lemma ScreenDumpReads(w: nat, h: nat, pix: Bytes)
    requires w < USIZE && h < USIZE && |pix| == w * h * 3 && |ScreenDump(w, h, pix)| < USIZE
    ensures ReadPpm(ScreenDump(w, h, pix)) == Ok(Pixmap(w, h, pix))
  {
    OneSpace(10);
    OneSpace(32);
    DumpShape(Decimal(w), Decimal(h), Decimal(255), pix);
    PpmReads(ScreenDump(w, h, pix), [Space(10)], w, [Space(32)], h, [Space(10)], 255, 10, pix, []);
  }
}
