/**
 The boot entries registered by boot-shim/src/bootentry.rs: firmware variables, the choice of a Boot####
 number, load options and BootOrder (UEFI Specification, section 3.1.3 "Load Options" and section 3.3
 "Globally Defined Variables").
 */
module BootEntry {
  import opened Base
  import opened Words
  import opened Utf16

  /** A global variable of the firmware. */
  datatype Var = Var(name: string, value: Bytes)

  const ORDER: string := "BootOrder"
  const LAST: nat := 0xffff

  // ---------------------------------------------------------------- Boot#### names

  function HexValue(c: char): Option<nat> {
    if '0' <= c <= '9' then Some((c - '0') as nat)
    else if 'a' <= c <= 'f' then Some((c - 'a') as nat + 10)
    else if 'A' <= c <= 'F' then Some((c - 'A') as nat + 10)
    else None
  }

  function HexDigit(d: nat): char
    requires d < 16
  {
    if d < 10 then '0' + d as char else 'A' + (d - 10) as char
  }

  /** A number in base 16; anything else is refused. */
  function Radix16(s: string): Option<nat> {
    if s == [] then Some(0)
    else
      match (Radix16(s[..|s| - 1]), HexValue(s[|s| - 1]))
      case (Some(hi), Some(d)) => Some(16 * hi + d)
      case _ => None
  }

  /** The number of a name; like the parser it stands for, it takes small letters and a leading plus. */
  function NumberOf(name: string): Option<nat> {
    if |name| != 8 || name[..4] != "Boot" then None
    else Radix16(if name[4] == '+' then name[5..] else name[4..])
  }

  function BootName(num: nat): string
    requires num <= LAST
  {
    "Boot" + [HexDigit(num / 16 / 16 / 16), HexDigit(num / 16 / 16 % 16), HexDigit(num / 16 % 16), HexDigit(num % 16)]
  }

  lemma HexRoundTrip(d: nat)
    requires d < 16
    ensures HexValue(HexDigit(d)) == Some(d)
  {
  }

  lemma Radix4(a: char, b: char, c: char, d: char)
    ensures Radix16([a, b, c, d]) ==
            if HexValue(a).Some? && HexValue(b).Some? && HexValue(c).Some? && HexValue(d).Some?
            then Some(4096 * HexValue(a).value + 256 * HexValue(b).value + 16 * HexValue(c).value + HexValue(d).value)
            else None
  {
    Radix3(a, b, c);
    assert [a, b, c, d][..3] == [a, b, c];
  }

  lemma Radix3(a: char, b: char, c: char)
    ensures Radix16([a, b, c]) ==
            if HexValue(a).Some? && HexValue(b).Some? && HexValue(c).Some?
            then Some(256 * HexValue(a).value + 16 * HexValue(b).value + HexValue(c).value)
            else None
  {
    assert [a, b, c][..2] == [a, b] && [a, b][..1] == [a] && [a][..0] == [];
    assert Radix16([a]) == if HexValue(a).Some? then Some(HexValue(a).value) else None;
  }

  /** The names as text: four digits in base 16, capital. */
  lemma NamesAre(num: nat)
    requires num <= LAST
    ensures LAST == 0xffff && ORDER == "BootOrder"
    ensures var digits := "0123456789ABCDEF";
            BootName(num) == "Boot" + [digits[num / 0x1000], digits[num / 0x100 % 16], digits[num / 0x10 % 16], digits[num % 16]]
  {
    assert num / 16 / 16 == num / 0x100 && num / 16 / 16 / 16 == num / 0x1000;
    DigitIs(num / 0x1000);
    DigitIs(num / 0x100 % 16);
    DigitIs(num / 0x10 % 16);
    DigitIs(num % 16);
  }

  lemma DigitIs(d: nat)
    requires d < 16
    ensures "0123456789ABCDEF"[d] == HexDigit(d)
  {
  }

  /** Every number is read back from its name. */
  lemma NumberOfName(num: nat)
    requires num <= LAST
    ensures NumberOf(BootName(num)) == Some(num)
  {
    var a, b, c, d := num / 16 / 16 / 16, num / 16 / 16 % 16, num / 16 % 16, num % 16;
    HexRoundTrip(a);
    HexRoundTrip(b);
    HexRoundTrip(c);
    HexRoundTrip(d);
    Radix4(HexDigit(a), HexDigit(b), HexDigit(c), HexDigit(d));
    FromNibbles(num);
    assert HexDigit(a) != '+';
    assert BootName(num)[4..] == [HexDigit(a), HexDigit(b), HexDigit(c), HexDigit(d)];
  }

  predicate UpperHex(c: char) {
    '0' <= c <= '9' || 'A' <= c <= 'F'
  }

  lemma UpperHexRoundTrip(c: char)
    requires UpperHex(c)
    ensures HexValue(c).Some? && HexValue(c).value < 16 && HexDigit(HexValue(c).value) == c
  {
  }

  lemma HexIsUpper(d: nat)
    requires d < 16
    ensures UpperHex(HexDigit(d))
  {
  }

  lemma CapitalName(a: char, b: char, c: char, d: char)
    requires UpperHex(a) && UpperHex(b) && UpperHex(c) && UpperHex(d)
    ensures var n := NumberOf("Boot" + [a, b, c, d]); n.Some? && n.value <= LAST && BootName(n.value) == "Boot" + [a, b, c, d]
  {
    UpperHexRoundTrip(a);
    UpperHexRoundTrip(b);
    UpperHexRoundTrip(c);
    UpperHexRoundTrip(d);
    Radix4(a, b, c, d);
    assert ("Boot" + [a, b, c, d])[4..] == [a, b, c, d];
    var x, y, z, w := HexValue(a).value, HexValue(b).value, HexValue(c).value, HexValue(d).value;
    Nibbles(4096 * x + 256 * y + 16 * z + w, x, y, z, w);
  }

  lemma Nibbles(n: nat, x: nat, y: nat, z: nat, w: nat)
    requires x < 16 && y < 16 && z < 16 && w < 16 && n == 4096 * x + 256 * y + 16 * z + w
    ensures n <= LAST && n / 16 / 16 / 16 == x && n / 16 / 16 % 16 == y && n / 16 % 16 == z && n % 16 == w
  {
    assert n / 16 == 256 * x + 16 * y + z;
    assert n / 16 / 16 == 16 * x + y;
  }

  lemma FromNibbles(n: nat)
    ensures n == 4096 * (n / 16 / 16 / 16) + 256 * (n / 16 / 16 % 16) + 16 * (n / 16 % 16) + n % 16
  {
    assert n / 16 == 16 * (n / 16 / 16) + n / 16 % 16;
    assert n / 16 / 16 == 16 * (n / 16 / 16 / 16) + n / 16 / 16 % 16;
  }

  function Exp16(n: nat): nat {
    if n == 0 then 1 else 16 * Exp16(n - 1)
  }

  lemma {:induction false} RadixBound(s: string)
    requires Radix16(s).Some?
    ensures Radix16(s).value < Exp16(|s|)
  {
    if s != [] {
      RadixBound(s[..|s| - 1]);
    }
  }

  lemma NumberBound(name: string)
    requires NumberOf(name).Some?
    ensures NumberOf(name).value <= LAST
  {
    assert Exp16(4) == 0x1_0000 && Exp16(3) == 0x1000;
    RadixBound(if name[4] == '+' then name[5..] else name[4..]);
  }

  /** A name that is taken for number n is n's own name exactly when its digits are capital. */
  lemma CanonicalIff(name: string)
    requires NumberOf(name).Some?
    ensures NumberOf(name).value <= LAST
    ensures name == BootName(NumberOf(name).value) <==> forall i :: 4 <= i < 8 ==> UpperHex(name[i])
  {
    NumberBound(name);
    NameIsUpper(NumberOf(name).value);
    assert name == "Boot" + [name[4], name[5], name[6], name[7]];
    if forall i :: 4 <= i < 8 ==> UpperHex(name[i]) {
      CapitalName(name[4], name[5], name[6], name[7]);
    }
  }

  lemma NameIsUpper(num: nat)
    requires num <= LAST
    ensures forall i :: 4 <= i < 8 ==> UpperHex(BootName(num)[i])
  {
    HexIsUpper(num / 16 / 16 / 16);
    HexIsUpper(num / 16 / 16 % 16);
    HexIsUpper(num / 16 % 16);
    HexIsUpper(num % 16);
  }

  // ---------------------------------------------------------------- load options

  /** A load option: active, the length of the path, description, path, optional data. */
  function LoadOption(dp: Bytes, desc: Units, data: Option<Units>): Bytes {
    LE(1, 4) + LE(|dp|, 2) + (Encode(desc) + LE(0, 2) + PathAndData(dp, data))
  }

  function PathAndData(dp: Bytes, data: Option<Units>): Bytes {
    dp + match data case None => [] case Some(d) => Encode(d) + LE(0, 2)
  }

  /** The units from byte `i` up to a zero unit, or nothing when none follows. */
  function UnitsFrom(b: Bytes, i: nat): Option<Units>
    decreases |b| - i
  {
    if i + 1 >= |b| then None
    else
      var c := FromLE(b[i..i + 2]);
      if c == 0 then Some([])
      else
        match UnitsFrom(b, i + 2)
        case None => None
        case Some(u) => WordOf(b, i); Some([c] + u)
  }

  lemma WordOf(b: Bytes, i: nat)
    requires i + 1 < |b|
    ensures FromLE(b[i..i + 2]) < 0x1_0000
  {
    FromLEBound(b[i..i + 2]);
    ExpValues();
  }

  /** The description, if it is text. */
  function DescriptionOf(b: Bytes): Option<Units> {
    if |b| < 8 then None else Text(UnitsFrom(b, 6))
  }

  function Text(u: Option<Units>): Option<Units> {
    if u.Some? && Paired(u.value) then u else None
  }

  method Descripcion(b: Bytes) returns (r: Option<Units>)
    ensures r == DescriptionOf(b)
  {
    if |b| < 8 {
      return None;
    }
    var units: Units := [];
    var i := 6;
    assert forall u: Units :: [] + u == u;
    while i + 1 < |b|
      invariant 6 <= i
      invariant UnitsFrom(b, 6) == match UnitsFrom(b, i) case None => None case Some(u) => Some(units + u)
      decreases |b| - i
    {
      WordOf(b, i);
      var c := FromLE(b[i..i + 2]);
      if c == 0 {
        assert units + [] == units;
        return Text(Some(units));
      }
      MoreUnits(b, i, units, c);
      units := units + [c];
      i := i + 2;
    }
    r := None;
  }

  lemma MoreUnits(b: Bytes, i: nat, units: Units, c: Word)
    requires i + 1 < |b| && c == FromLE(b[i..i + 2]) != 0
    ensures match UnitsFrom(b, i)
            case None => UnitsFrom(b, i + 2) == None
            case Some(u) => UnitsFrom(b, i + 2).Some? && units + u == units + [c] + UnitsFrom(b, i + 2).value
  {
  }

  lemma {:induction false} UnitsBack(b: Bytes, i: nat, desc: Units, rest: Bytes)
    requires i <= |b| && b[i..] == Encode(desc) + LE(0, 2) + rest
    ensures UnitsFrom(b, i).Some?
    ensures UnitsFrom(b, i) == Some(desc) <==> forall k :: 0 <= k < |desc| ==> desc[k] != 0
    decreases |desc|
  {
    if desc == [] {
      assert b[i..i + 2] == b[i..][..2] == LE(0, 2);
      LERoundTrip(0, 2);
    } else {
      assert Encode(desc) == LE(desc[0], 2) + Encode(desc[1..]);
      assert b[i..i + 2] == b[i..][..2] == LE(desc[0], 2);
      LERoundTrip(desc[0], 2);
      ExpValues();
      assert b[i + 2..] == b[i..][2..] == Encode(desc[1..]) + LE(0, 2) + rest;
      UnitsBack(b, i + 2, desc[1..], rest);
      TailNonZero(desc);
      assert desc == [desc[0]] + desc[1..];
      assert forall u: Units :: ([desc[0]] + u)[1..] == u;
    }
  }

  lemma TailNonZero(desc: Units)
    requires desc != []
    ensures (forall k :: 0 <= k < |desc| ==> desc[k] != 0) <==>
            desc[0] != 0 && forall k :: 0 <= k < |desc[1..]| ==> desc[1..][k] != 0
  {
    assert forall k :: 0 < k < |desc| ==> desc[k] == desc[1..][k - 1];
  }

  /** The description written is the description read exactly when it is text without a zero unit, whatever path and data
      follow. */
  lemma DescriptionReadsBack(dp: Bytes, desc: Units, data: Option<Units>)
    ensures DescriptionOf(LoadOption(dp, desc, data)) == Some(desc) <==> Paired(desc) && forall k :: 0 <= k < |desc| ==> desc[k] != 0
  {
    var b := LoadOption(dp, desc, data);
    assert b[6..] == Encode(desc) + LE(0, 2) + PathAndData(dp, data);
    UnitsBack(b, 6, desc, PathAndData(dp, data));
  }

  /** A load option as the firmware reads it: four bytes of attributes, of which the lowest bit says active, the length of
      the path in two, the description up to a zero unit, the path, and whatever follows. */
  datatype Entry = Entry(active: bool, description: Units, path: Bytes, data: Bytes)

  function EntryOf(b: Bytes): Option<Entry> {
    if |b| < 6 || UnitsFrom(b, 6).None? then None
    else
      var description, length := UnitsFrom(b, 6).value, FromLE(b[4..6]);
      var start := 6 + 2 * |description| + 2;
      if start + length > |b| then None
      else Some(Entry(FromLE(b[0..4]) % 2 == 1, description, b[start..start + length], b[start + length..]))
  }

  lemma Cuts(a: Bytes, l: Bytes, e: Bytes, z: Bytes, p: Bytes, b: Bytes)
    requires b == a + l + (e + z + p) && |a| == 4 && |l| == 2
    ensures b[0..4] == a && b[4..6] == l && b[6..] == e + z + p && b[6 + |e| + |z|..] == p
  {
    assert b[6..] == e + z + p;
    assert b[6 + |e| + |z|..] == b[6..][|e| + |z|..];
  }

  lemma OptionParts(dp: Bytes, desc: Units, data: Option<Units>, b: Bytes, start: nat)
    requires b == LoadOption(dp, desc, data) && start == 6 + 2 * |desc| + 2
    ensures 6 <= start <= |b| && FromLE(b[0..4]) == 1 && FromLE(b[4..6]) == |dp| % 0x1_0000
    ensures b[6..] == Encode(desc) + LE(0, 2) + PathAndData(dp, data)
    ensures b[start..] == dp + PathAndData([], data)
  {
    EncodeLength(desc);
    Cuts(LE(1, 4), LE(|dp|, 2), Encode(desc), LE(0, 2), PathAndData(dp, data), b);
    OptionNumbers(|dp|);
    DataAfterPath(dp, data);
  }

  lemma DataAfterPath(dp: Bytes, data: Option<Units>)
    ensures PathAndData(dp, data) == dp + PathAndData([], data)
  {
  }

  lemma OptionNumbers(n: nat)
    ensures FromLE(LE(1, 4)) == 1 && FromLE(LE(n, 2)) == n % 0x1_0000
  {
    LEMod(1, 4);
    LEMod(n, 2);
    ExpValues();
  }

  /** The firmware reads an active entry with the description, path and data written, exactly when the description has no
      zero unit and the length of the path fits in two bytes. */
  lemma OptionReads(dp: Bytes, desc: Units, data: Option<Units>)
    ensures EntryOf(LoadOption(dp, desc, data)) == Some(Entry(true, desc, dp, PathAndData([], data))) <==>
            |dp| < 0x1_0000 && forall k :: 0 <= k < |desc| ==> desc[k] != 0
  {
    var b, start := LoadOption(dp, desc, data), 6 + 2 * |desc| + 2;
    OptionParts(dp, desc, data, b, start);
    UnitsBack(b, 6, desc, PathAndData(dp, data));
    PathOf(b, start, dp, PathAndData([], data), |dp| % 0x1_0000);
    ReadsWhen(b, desc, dp, PathAndData([], data), start);
  }

  lemma ReadsWhen(b: Bytes, desc: Units, dp: Bytes, rest: Bytes, start: nat)
    requires |b| >= 6 && UnitsFrom(b, 6).Some? && start == 6 + 2 * |desc| + 2 <= |b|
    requires FromLE(b[0..4]) == 1 && FromLE(b[4..6]) == |dp| % 0x1_0000 && start + |dp| % 0x1_0000 <= |b|
    requires b[start..start + |dp| % 0x1_0000] == dp <==> |dp| % 0x1_0000 == |dp|
    requires |dp| % 0x1_0000 == |dp| ==> b[start + |dp|..] == rest
    ensures EntryOf(b) == Some(Entry(true, desc, dp, rest)) <==> |dp| < 0x1_0000 && UnitsFrom(b, 6) == Some(desc)
  {
    var length := |dp| % 0x1_0000;
    if UnitsFrom(b, 6) == Some(desc) {
      assert EntryOf(b) == Some(Entry(true, desc, b[start..start + length], b[start + length..]));
    }
  }

  lemma PathOf(b: Bytes, start: nat, dp: Bytes, rest: Bytes, length: nat)
    requires start <= |b| && b[start..] == dp + rest && length <= |dp|
    ensures start + length <= |b|
    ensures b[start..start + length] == dp <==> length == |dp|
    ensures length == |dp| ==> b[start + length..] == rest
  {
    assert |b[start..start + length]| == length;
    assert b[start..start + length] == b[start..][..length];
    assert b[start + length..] == b[start..][length..];
  }

  // ---------------------------------------------------------------- BootOrder

  /** Pairs of bytes; an odd byte at the end is dropped. */
  function Order(b: Bytes): (o: Units)
  {
    if |b| < 2 then []
    else
      WordOf(b, 0);
      [FromLE(b[0..2])] + Order(b[2..])
  }

  lemma {:induction false} OrderReadsBack(o: Units)
    ensures Order(Encode(o)) == o
  {
    if o != [] {
      var b := Encode(o);
      assert b[0..2] == LE(o[0], 2) && b[2..] == Encode(o[1..]);
      LERoundTrip(o[0], 2);
      ExpValues();
      OrderReadsBack(o[1..]);
    }
  }

  function Without(o: Units, num: Word): (r: Units)
    ensures num !in r
    ensures forall x :: x in o && x != num ==> x in r
  {
    if o == [] then []
    else if o[0] == num then Without(o[1..], num)
    else [o[0]] + Without(o[1..], num)
  }

  function Reorder(o: Units, num: Word, first: bool): Units {
    if first then [num] + Without(o, num) else Without(o, num) + [num]
  }

  lemma {:induction false} WithoutJoin(a: Units, b: Units, num: Word)
    ensures Without(a + b, num) == Without(a, num) + Without(b, num)
  {
    if a == [] {
      assert a + b == b;
    } else {
      assert (a + b)[0] == a[0] && (a + b)[1..] == a[1..] + b;
      WithoutJoin(a[1..], b, num);
    }
  }

  lemma {:induction false} WithoutNothing(o: Units, num: Word)
    requires num !in o
    ensures Without(o, num) == o
  {
    if o != [] {
      WithoutNothing(o[1..], num);
    }
  }

  /** The normal entry first, the rescue entry last, all others in between in their old order. */
  lemma PairInOrder(o: Units, n: Word, r: Word)
    requires n != r
    ensures Reorder(Reorder(o, n, true), r, false) == [n] + Without(Without(o, n), r) + [r]
  {
    WithoutJoin([n], Without(o, n), r);
    assert Without([n], r) == [n] by {
      assert [n][1..] == [];
    }
  }

  /** In such an order, placing either again changes nothing. */
  lemma PairStays(m: Units, n: Word, r: Word)
    requires n != r && n !in m && r !in m
    ensures Reorder([n] + m + [r], n, true) == [n] + m + [r]
    ensures Reorder([n] + m + [r], r, false) == [n] + m + [r]
  {
    var o := [n] + m + [r];
    assert [n][1..] == [] && [r][1..] == [];
    WithoutJoin([n] + m, [r], n);
    WithoutJoin([n], m, n);
    WithoutNothing(m, n);
    WithoutJoin([n] + m, [r], r);
    WithoutJoin([n], m, r);
    WithoutNothing(m, r);
    assert Without([n], n) == [] && Without([r], n) == [r] && Without([n], r) == [n] && Without([r], r) == [];
    assert [n] + ([] + m + [r]) == o;
  }
}
