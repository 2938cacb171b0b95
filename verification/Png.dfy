/**
 PPM to PNG (xtask/src/fb_shot.rs): scan lines with filter 0, one IDAT chunk holding a stored zlib
 stream, and the reader of RFC 2083 (sections 3.2, 3.4, 4.1.1 and 6) for such files.
 */
module Png {
  import opened Base
  import opened Utf16
  import opened Zlib
  import opened Ppm
  import Crc32

  const SIGNATURE: Bytes := [0x89, 80, 78, 71, 0x0d, 0x0a, 0x1a, 0x0a]
  const IHDR: Bytes := [73, 72, 68, 82]
  const IDAT: Bytes := [73, 68, 65, 84]
  const IEND: Bytes := [73, 69, 78, 68]

  /** The largest value a four-byte field of a PNG file may hold (RFC 2083, section 2.1). */
  const PNG_LIMIT: nat := 0x8000_0000

  // ---------------------------------------------------------------- writing

  function Chunk(sum: Bytes -> nat, tipo: Bytes, data: Bytes): (c: Bytes)
    requires |tipo| == 4
    ensures |c| == 12 + |data|
  {
    BE32(|data|) + tipo + data + BE32(sum(tipo + data))
  }

  function Scanlines(pix: Bytes, w: nat, h: nat): Bytes
    requires |pix| == w * h * 3
    decreases h
  {
    if h == 0 then []
    else
      RowSize(w, h);
      [0] + pix[..w * 3] + Scanlines(pix[w * 3..], w, h - 1)
  }

  lemma RowSize(w: nat, h: nat)
    requires h > 0
    ensures w * h * 3 == w * 3 + w * (h - 1) * 3 && w * 3 <= w * h * 3
  {
    assert w * h == w + w * (h - 1);
  }

  function Size(w: nat, h: nat): Bytes {
    BE32(w) + BE32(h) + [8, 2, 0, 0, 0]
  }

  function Encode(img: Pixmap): Bytes
    requires |img.pix| == img.w * img.h * 3
  {
    SIGNATURE + Chunk(Crc32.Checksum, IHDR, Size(img.w, img.h))
    + Chunk(Crc32.Checksum, IDAT, Stream(Scanlines(img.pix, img.w, img.h))) + Chunk(Crc32.Checksum, IEND, [])
  }

  /** The signature, and the three chunks under their names: eight bits a sample, three samples a pixel, no interlace. */
  lemma FileLayout(img: Pixmap)
    requires |img.pix| == img.w * img.h * 3
    ensures Encode(img) == [0x89] + Ascii("PNG\r\n") + [0x1a] + Ascii("\n")
                           + Chunk(Crc32.Checksum, Ascii("IHDR"), BE32(img.w) + BE32(img.h) + [8, 2, 0, 0, 0])
                           + Chunk(Crc32.Checksum, Ascii("IDAT"), Stream(Scanlines(img.pix, img.w, img.h)))
                           + Chunk(Crc32.Checksum, Ascii("IEND"), [])
  {
    ChunkNames();
  }

  lemma ChunkNames()
    ensures SIGNATURE == [0x89] + Ascii("PNG\r\n") + [0x1a] + Ascii("\n")
    ensures IHDR == Ascii("IHDR") && IDAT == Ascii("IDAT") && IEND == Ascii("IEND")
  {
  }

  /** Row `y` of the image, at `o`: a zero, then its pixels, those from `p` on. */
  lemma {:induction false} RowAt(pix: Bytes, w: nat, h: nat, y: nat, n: nat, o: nat, p: nat)
    requires |pix| == w * h * 3 && y < h && n == w * 3 && o == y * (1 + n) && p == y * n
    ensures o + 1 + n <= |Scanlines(pix, w, h)| && p + n <= |pix|
    ensures Scanlines(pix, w, h)[o] == 0 && Scanlines(pix, w, h)[o + 1..o + 1 + n] == pix[p..p + n]
    decreases y
  {
    RowSize(w, h);
    if y > 0 {
      RowBefore(y, n, o, p);
      RowAt(pix[n..], w, h - 1, y - 1, n, o - 1 - n, p - n);
      NextRow(pix, Scanlines(pix[n..], w, h - 1), n, o - 1 - n, p - n);
    }
  }

  lemma RowBefore(y: nat, n: nat, o: nat, p: nat)
    requires y > 0 && o == y * (1 + n) && p == y * n
    ensures o >= 1 + n && o - 1 - n == (y - 1) * (1 + n) && p >= n && p - n == (y - 1) * n
  {
  }

  lemma NextRow(pix: Bytes, more: Bytes, n: nat, o: nat, p: nat)
    requires n <= |pix| && o + 1 + n <= |more| && p + n <= |pix| - n
    requires more[o] == 0 && more[o + 1..o + 1 + n] == pix[n..][p..p + n]
    ensures var all := [0] + pix[..n] + more;
            && all[o + (1 + n)] == 0
            && all[o + (1 + n) + 1..o + (1 + n) + 1 + n] == pix[p + n..p + n + n]
  {
    assert pix[n..][p..p + n] == pix[p + n..p + n + n];
    assert ([0] + pix[..n] + more)[o + (1 + n) + 1..o + (1 + n) + 1 + n] == more[o + 1..o + 1 + n];
  }

  method WriteChunk(out: Bytes, tipo: Bytes, datos: Bytes) returns (res: Bytes)
    requires |tipo| == 4
    ensures res == out + Chunk(Crc32.Checksum, tipo, datos)
  {
    res := out + BE32(|datos|);
    res := res + tipo;
    res := res + datos;
    var c := Crc32.ChecksumOfTwo(tipo, datos);
    res := res + BE32(c);
  }

  method Rows(pix: Bytes, w: nat, h: nat) returns (raw: Bytes)
    requires |pix| == w * h * 3
    ensures raw == Scanlines(pix, w, h)
  {
    raw := [];
    var y, at := 0, 0;
    assert pix[0..] == pix;
    while y < h
      invariant 0 <= y <= h && at == y * w * 3 <= |pix|
      invariant |pix[at..]| == w * (h - y) * 3
      invariant Scanlines(pix, w, h) == raw + Scanlines(pix[at..], w, h - y)
    {
      RowSize(w, h - y);
      var row := pix[at..at + w * 3];
      assert pix[at..][..w * 3] == row && pix[at..][w * 3..] == pix[at + w * 3..];
      Regroup3(raw, [0] + row, Scanlines(pix[at + w * 3..], w, h - y - 1));
      raw := raw + ([0] + row);
      assert (y + 1) * w * 3 == y * w * 3 + w * 3;
      y, at := y + 1, at + w * 3;
    }
  }

  lemma Regroup3(a: Bytes, b: Bytes, c: Bytes)
    ensures a + (b + c) == (a + b) + c
  {
  }

  method PpmAPng(datos: Bytes) returns (png: Result<Bytes, Error>)
    ensures png == match ReadPpm(datos) case Ok(img) => Ok(Encode(img)) case Err(e) => Err(e)
    ensures png.Ok? ==> (Decode(png.value) == Some(ReadPpm(datos).value) <==> Representable(ReadPpm(datos).value))
  {
    var r := LeerPpm(datos);
    if r.Err? {
      return Err(r.error);
    }
    var img := r.value;
    DecodeEncode(img);
    var raw := Rows(img.pix, img.w, img.h);
    var out := SIGNATURE;
    out := WriteChunk(out, IHDR, Size(img.w, img.h));
    var idat := ZlibStored(raw);
    out := WriteChunk(out, IDAT, idat);
    out := WriteChunk(out, IEND, []);
    png := Ok(out);
  }

  // ---------------------------------------------------------------- reading

  /** The chunk at the start of `z` and what follows it, if its length is legal and its CRC matches. */
  function ReadChunk(sum: Bytes -> nat, z: Bytes, tipo: Bytes): Option<(Bytes, Bytes)>
    requires |tipo| == 4
  {
    if |z| < 12 then None
    else
      var len := FromBE32(z[..4]);
      if len >= PNG_LIMIT || |z| < 12 + len || z[4..8] != tipo then None
      else if FromBE32(z[8 + len..12 + len]) != sum(tipo + z[8..8 + len]) then None
      else Some((z[8..8 + len], z[12 + len..]))
  }

  function Unfilter(raw: Bytes, w: nat, h: nat): Option<Bytes>
    decreases h
  {
    if h == 0 then if raw == [] then Some([]) else None
    else if |raw| < 1 + w * 3 || raw[0] != 0 then None
    else
      match Unfilter(raw[1 + w * 3..], w, h - 1)
      case None => None
      case Some(more) => Some(raw[1..1 + w * 3] + more)
  }

  function DecodeSize(s: Bytes): Option<(nat, nat)> {
    if |s| != 13 || s[8..] != [8, 2, 0, 0, 0] then None
    else
      var w, h := FromBE32(s[..4]), FromBE32(s[4..8]);
      if 0 < w < PNG_LIMIT && 0 < h < PNG_LIMIT then Some((w, h)) else None
  }

  function DecodeImage(w: nat, h: nat, stream: Bytes): (r: Option<Pixmap>)
    ensures r.Some? ==> r.value.w == w && r.value.h == h
  {
    match Inflate(stream)
    case None => None
    case Some(raw) =>
      match Unfilter(raw, w, h)
      case None => None
      case Some(pix) => Some(Pixmap(w, h, pix))
  }

  function DecodeParts(size: Bytes, stream: Bytes): Option<Pixmap> {
    match DecodeSize(size)
    case None => None
    case Some((w, h)) => DecodeImage(w, h, stream)
  }

  function DecodeChunks(sum: Bytes -> nat, z: Bytes): Option<Pixmap> {
    match ReadChunk(sum, z, IHDR)
    case None => None
    case Some((s, z1)) =>
      match ReadChunk(sum, z1, IDAT)
      case None => None
      case Some((stream, z2)) =>
        if ReadChunk(sum, z2, IEND) != Some(([], [])) then None else DecodeParts(s, stream)
  }

  function Decode(file: Bytes): Option<Pixmap> {
    if |file| < 8 || file[..8] != SIGNATURE then None else DecodeChunks(Crc32.Checksum, file[8..])
  }

  // ---------------------------------------------------------------- round trip

  /** The images a PNG file written this way can carry: the stream has one filter byte for each row. */
  predicate Representable(img: Pixmap) {
    0 < img.w < PNG_LIMIT && 0 < img.h < PNG_LIMIT && StreamSize(img.h + img.w * img.h * 3) < PNG_LIMIT
  }

  /** A chunk whose length field reads as `len` is cut at that length. */
  lemma ChunkReads(sum: Bytes -> nat, field: Bytes, tipo: Bytes, data: Bytes, crc: Bytes, rest: Bytes)
    requires |field| == |tipo| == |crc| == 4
    requires FromBE32(field) == |data| % 0x1_0000_0000 && FromBE32(crc) == sum(tipo + data)
    ensures var r := ReadChunk(sum, field + tipo + data + crc + rest, tipo);
            && (|data| < PNG_LIMIT ==> r == Some((data, rest)))
            && (|data| >= PNG_LIMIT && r.Some? ==> |r.value.0| < |data|)
  {
    var z := field + tipo + data + crc + rest;
    assert z[..4] == field;
    ChunkParts(field, tipo, data, crc, rest);
  }

  lemma ChunkParts(field: Bytes, tipo: Bytes, data: Bytes, crc: Bytes, rest: Bytes)
    requires |field| == |tipo| == |crc| == 4
    ensures var z := field + tipo + data + crc + rest;
            && z[4..8] == tipo && z[8..8 + |data|] == data
            && z[8 + |data|..12 + |data|] == crc
            && z[12 + |data|..] == rest
  {
  }

  /** How a written chunk reads back, whatever its length: the length field keeps 32 bits. */
  lemma ChunkReadsBack(sum: Bytes -> nat, tipo: Bytes, data: Bytes, rest: Bytes)
    requires |tipo| == 4 && sum(tipo + data) < 0x1_0000_0000
    ensures var r := ReadChunk(sum, Chunk(sum, tipo, data) + rest, tipo);
            && (|data| < PNG_LIMIT ==> r == Some((data, rest)))
            && (|data| >= PNG_LIMIT && r.Some? ==> |r.value.0| < |data|)
  {
    BE32RoundTrip(|data|);
    BE32RoundTrip(sum(tipo + data));
    ChunkReads(sum, BE32(|data|), tipo, data, BE32(sum(tipo + data)), rest);
  }

  lemma {:induction false} UnfilterScanlines(pix: Bytes, w: nat, h: nat)
    requires |pix| == w * h * 3
    ensures Unfilter(Scanlines(pix, w, h), w, h) == Some(pix)
    ensures |Scanlines(pix, w, h)| == h + |pix|
    decreases h
  {
    if h > 0 {
      RowSize(w, h);
      var row, more := pix[..w * 3], pix[w * 3..];
      UnfilterScanlines(more, w, h - 1);
      var raw := Scanlines(pix, w, h);
      assert raw[1..1 + w * 3] == row && raw[1 + w * 3..] == Scanlines(more, w, h - 1);
      assert row + more == pix;
    }
  }

  lemma {:induction false} UnfilterLength(raw: Bytes, w: nat, h: nat)
    requires Unfilter(raw, w, h).Some?
    ensures |raw| == h + |Unfilter(raw, w, h).value|
    decreases h
  {
    if h > 0 {
      UnfilterLength(raw[1 + w * 3..], w, h - 1);
    }
  }

  /** The header carries a size exactly when neither side is zero or above the limit. */
  lemma SizeReads(w: nat, h: nat)
    ensures |Size(w, h)| == 13
    ensures DecodeSize(Size(w, h)) == Some((w, h)) <==> 0 < w < PNG_LIMIT && 0 < h < PNG_LIMIT
  {
    var s := Size(w, h);
    assert s[..4] == BE32(w) && s[4..8] == BE32(h) && s[8..] == [8, 2, 0, 0, 0];
    BE32RoundTrip(w);
    BE32RoundTrip(h);
  }

  function File(sum: Bytes -> nat, size: Bytes, stream: Bytes): Bytes {
    Chunk(sum, IHDR, size) + (Chunk(sum, IDAT, stream) + Chunk(sum, IEND, []))
  }

  lemma DecodeEncodeChunks(sum: Bytes -> nat, size: Bytes, stream: Bytes)
    requires |size| == 13 && forall x :: sum(x) < 0x1_0000_0000
    ensures |stream| < PNG_LIMIT ==> DecodeChunks(sum, File(sum, size, stream)) == DecodeParts(size, stream)
    ensures |stream| >= PNG_LIMIT && DecodeChunks(sum, File(sum, size, stream)).Some? ==>
              exists short :: |short| < |stream| && DecodeChunks(sum, File(sum, size, stream)) == DecodeParts(size, short)
  {
    ChunkReadsBack(sum, IHDR, size, Chunk(sum, IDAT, stream) + Chunk(sum, IEND, []));
    ChunkReadsBack(sum, IDAT, stream, Chunk(sum, IEND, []));
    ChunkReadsBack(sum, IEND, [], []);
    assert Chunk(sum, IEND, []) + [] == Chunk(sum, IEND, []);
  }

  lemma PartsDecode(img: Pixmap, stream: Bytes)
    requires |img.pix| == img.w * img.h * 3
    ensures DecodeParts(Size(img.w, img.h), stream) == Some(img) <==>
            0 < img.w < PNG_LIMIT && 0 < img.h < PNG_LIMIT && DecodeImage(img.w, img.h, stream) == Some(img)
  {
    SizeReads(img.w, img.h);
  }

  lemma ImageDecodes(img: Pixmap)
    requires |img.pix| == img.w * img.h * 3 && img.h > 0
    ensures DecodeImage(img.w, img.h, Stream(Scanlines(img.pix, img.w, img.h))) == Some(img)
  {
    UnfilterScanlines(img.pix, img.w, img.h);
    StreamReadsBack(Scanlines(img.pix, img.w, img.h));
  }

  lemma ChunksRoundTrip(sum: Bytes -> nat, img: Pixmap)
    requires |img.pix| == img.w * img.h * 3 && forall x :: sum(x) < 0x1_0000_0000
    ensures var stream := Stream(Scanlines(img.pix, img.w, img.h));
            DecodeChunks(sum, File(sum, Size(img.w, img.h), stream)) == Some(img) <==> 0 < img.w < PNG_LIMIT && 0 < img.h < PNG_LIMIT && |stream| < PNG_LIMIT
  {
    var size, stream := Size(img.w, img.h), Stream(Scanlines(img.pix, img.w, img.h));
    DecodeEncodeChunks(sum, size, stream);
    PartsDecode(img, stream);
    if |stream| < PNG_LIMIT {
      if img.h > 0 {
        ImageDecodes(img);
      }
    } else if DecodeChunks(sum, File(sum, size, stream)) == Some(img) {
      var short :| |short| < |stream| && DecodeChunks(sum, File(sum, size, stream)) == DecodeParts(size, short);
      PartsDecode(img, short);
      ShortStream(img, short);
    }
  }

  lemma EncodedLength(img: Pixmap)
    requires |img.pix| == img.w * img.h * 3
    ensures |Stream(Scanlines(img.pix, img.w, img.h))| == StreamSize(img.h + img.w * img.h * 3)
  {
    var raw := Scanlines(img.pix, img.w, img.h);
    UnfilterScanlines(img.pix, img.w, img.h);
    StreamLength(raw);
    assert |raw| == img.h + |img.pix|;
  }

  /** The file decodes to the image exactly when the image is representable: neither side is zero (an image
      without rows has a stream without a final block) and no field overflows. */
  lemma DecodeEncode(img: Pixmap)
    requires |img.pix| == img.w * img.h * 3
    ensures (Decode(Encode(img)) == Some(img)) == Representable(img)
  {
    EncodedLength(img);
    FileRoundTrip(img, Stream(Scanlines(img.pix, img.w, img.h)), Representable(img));
  }

  lemma FileRoundTrip(img: Pixmap, stream: Bytes, fits: bool)
    requires |img.pix| == img.w * img.h * 3 && stream == Stream(Scanlines(img.pix, img.w, img.h))
    requires fits == (0 < img.w < PNG_LIMIT && 0 < img.h < PNG_LIMIT && |stream| < PNG_LIMIT)
    ensures (Decode(Encode(img)) == Some(img)) == fits
  {
    ChunksRoundTrip(Crc32.Checksum, img);
    Signed(Crc32.Checksum, Size(img.w, img.h), stream);
  }

  lemma Signed(sum: Bytes -> nat, size: Bytes, stream: Bytes)
    ensures var file := SIGNATURE + Chunk(sum, IHDR, size) + Chunk(sum, IDAT, stream) + Chunk(sum, IEND, []);
            |file| >= 8 && file[..8] == SIGNATURE && file[8..] == File(sum, size, stream)
  {
    assert SIGNATURE + Chunk(sum, IHDR, size) + Chunk(sum, IDAT, stream) + Chunk(sum, IEND, [])
        == SIGNATURE + File(sum, size, stream);
  }

  /** No shorter stream decodes to the same image. */
  lemma ShortStream(img: Pixmap, short: Bytes)
    requires |img.pix| == img.w * img.h * 3
    requires DecodeImage(img.w, img.h, short) == Some(img)
    ensures |short| >= |Stream(Scanlines(img.pix, img.w, img.h))|
  {
    var raw := Inflate(short).value;
    UnfilterLength(raw, img.w, img.h);
    UnfilterScanlines(img.pix, img.w, img.h);
    StreamShortest(short, Scanlines(img.pix, img.w, img.h));
  }
}
