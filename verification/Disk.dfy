/**
 The disk image as xtask/src/fat32_write.rs reads and writes it: whole ranges at byte offsets. The
 image is a file of fixed length; reads and writes inside it do not fail.
 */
module Disk {
  import opened Base

  /** The I/O unit of large copies and fills. */
  const IO_CHUNK: nat := 256 * 1024

  function Spliced(img: Bytes, off: nat, data: Bytes, k: nat): (r: Bytes)
    requires off + |data| <= |img|
    ensures |r| == |img|
    decreases k
  {
    if k == 0 then img[..off] + data + img[off + |data|..] else Spliced(img, off, data, k - 1)
  }

  /** The image after a write of `data` at `off`: folded, see `SpliceIs`. */
  ghost function Splice(img: Bytes, off: nat, data: Bytes): (r: Bytes)
    requires off + |data| <= |img|
    ensures |r| == |img|
  {
    Spliced(img, off, data, FOLDS)
  }

  lemma {:induction false} SplicedIs(img: Bytes, off: nat, data: Bytes, k: nat)
    requires off + |data| <= |img|
    ensures Spliced(img, off, data, k) == img[..off] + data + img[off + |data|..]
    decreases k
  {
    if k > 0 {
      SplicedIs(img, off, data, k - 1);
    }
  }

  lemma SpliceIs(img: Bytes, off: nat, data: Bytes)
    requires off + |data| <= |img|
    ensures Splice(img, off, data) == img[..off] + data + img[off + |data|..]
  {
    SplicedIs(img, off, data, FOLDS);
  }

  function Fill(n: nat, b: byte): (f: Bytes)
    ensures |f| == n
    ensures forall i :: 0 <= i < n ==> f[i] == b
  {
    seq(n, i => b)
  }

  lemma SpliceIndex(img: Bytes, off: nat, data: Bytes, i: nat)
    requires off + |data| <= |img| && i < |img|
    ensures Splice(img, off, data)[i] == if off <= i < off + |data| then data[i - off] else img[i]
  {
    SpliceIs(img, off, data);
  }

  lemma SpliceApart(img: Bytes, off: nat, data: Bytes, lo: nat, hi: nat)
    requires off + |data| <= |img| && lo <= hi <= |img| && (hi <= off || off + |data| <= lo)
    ensures Splice(img, off, data)[lo..hi] == img[lo..hi]
  {
    var r := Splice(img, off, data);
    forall i | 0 <= i < hi - lo
      ensures r[lo..hi][i] == img[lo..hi][i]
    {
      SpliceIndex(img, off, data, lo + i);
    }
  }

  lemma SpliceInside(img: Bytes, off: nat, data: Bytes, lo: nat, hi: nat)
    requires off + |data| <= |img| && off <= lo <= hi <= off + |data|
    ensures Splice(img, off, data)[lo..hi] == data[lo - off..hi - off]
  {
    var r := Splice(img, off, data);
    forall i | 0 <= i < hi - lo
      ensures r[lo..hi][i] == data[lo - off..hi - off][i]
    {
      SpliceIndex(img, off, data, lo + i);
    }
  }

  lemma Joined(img: Bytes, a: nat, b: nat, c: nat)
    requires a <= b <= c <= |img|
    ensures img[a..b] + img[b..c] == img[a..c]
  {
  }

  lemma NoSplice(img: Bytes, off: nat)
    requires off <= |img|
    ensures Splice(img, off, []) == img
  {
    SpliceIs(img, off, []);
  }

  /** Two adjacent writes are one. */
  lemma SpliceUp(img: Bytes, off: nat, a: Bytes, b: Bytes)
    requires off + |a| + |b| <= |img|
    ensures Splice(Splice(img, off, a), off + |a|, b) == Splice(img, off, a + b)
  {
    SpliceIs(img, off, a);
    SpliceIs(Splice(img, off, a), off + |a|, b);
    SpliceIs(img, off, a + b);
  }

  lemma SpliceDown(img: Bytes, off: nat, a: Bytes, b: Bytes)
    requires off + |a| + |b| <= |img|
    ensures Splice(Splice(img, off + |a|, b), off, a) == Splice(img, off, a + b)
  {
    SpliceIs(img, off + |a|, b);
    SpliceIs(Splice(img, off + |a|, b), off, a);
    SpliceIs(img, off, a + b);
  }

  lemma SpliceSame(img: Bytes, off: nat, n: nat)
    requires off + n <= |img|
    ensures Splice(img, off, img[off..off + n]) == img
  {
    SpliceIs(img, off, img[off..off + n]);
  }

  /** A write of the same range hides the earlier one. */
  lemma SpliceOver(img: Bytes, off: nat, a: Bytes, b: Bytes)
    requires |a| == |b| && off + |a| <= |img|
    ensures Splice(Splice(img, off, a), off, b) == Splice(img, off, b)
  {
    SpliceIs(img, off, a);
    SpliceIs(Splice(img, off, a), off, b);
    SpliceIs(img, off, b);
  }

  /** Writes that do not touch each other may be done in either order. */
  lemma SpliceSwap(img: Bytes, o: nat, a: Bytes, p: nat, b: Bytes)
    requires o + |a| <= p && p + |b| <= |img|
    ensures Splice(Splice(img, o, a), p, b) == Splice(Splice(img, p, b), o, a)
  {
    var r, s := Splice(Splice(img, o, a), p, b), Splice(Splice(img, p, b), o, a);
    forall i | 0 <= i < |img|
      ensures r[i] == s[i]
    {
      SpliceIndex(img, o, a, i);
      SpliceIndex(Splice(img, o, a), p, b, i);
      SpliceIndex(img, p, b, i);
      SpliceIndex(Splice(img, p, b), o, a, i);
    }
  }

  /** One more chunk of an upward copy: the source is still what it was. */
  lemma UpStep(was: Bytes, now: Bytes, src: nat, dst: nat, done: nat, next: nat)
    requires done <= next && src + next <= |was| && dst + next <= |was| && (dst <= src || src + next <= dst)
    requires now == Splice(was, dst, was[src..src + done])
    ensures |now| == |was| && now[src + done..src + next] == was[src + done..src + next]
    ensures Splice(now, dst + done, was[src + done..src + next]) == Splice(was, dst, was[src..src + next])
  {
    var a, b := was[src..src + done], was[src + done..src + next];
    SpliceApart(was, dst, a, src + done, src + next);
    SpliceUp(was, dst, a, b);
    Joined(was, src, src + done, src + next);
  }

  lemma DownStep(was: Bytes, now: Bytes, src: nat, dst: nat, len: nat, off: nat, mid: nat)
    requires src < dst && dst + len <= |was| && off <= mid <= len
    requires now == Splice(was, dst + mid, was[src + mid..src + len])
    ensures |now| == |was| && now[src + off..src + mid] == was[src + off..src + mid]
    ensures Splice(now, dst + off, was[src + off..src + mid]) == Splice(was, dst + off, was[src + off..src + len])
  {
    var a, b := was[src + off..src + mid], was[src + mid..src + len];
    SpliceApart(was, dst + mid, b, src + off, src + mid);
    SpliceDown(was, dst + off, a, b);
    Joined(was, src + off, src + mid, src + len);
  }

  class Image {
    var img: Bytes

    constructor (img: Bytes)
      ensures this.img == img
    {
      this.img := img;
    }

    method ReadAt(off: nat, end: nat) returns (buf: Bytes)
      requires off <= end <= |img|
      ensures buf == img[off..end]
    {
      buf := img[off..end];
    }

    method WriteAt(off: nat, data: Bytes)
      requires off + |data| <= |img|
      modifies this
      ensures img == Splice(old(img), off, data)
    {
      SpliceIs(img, off, data);
      img := img[..off] + data + img[off + |data|..];
    }

    method WriteFill(off: nat, len: nat, b: byte)
      requires off + len <= |img|
      modifies this
      ensures img == Splice(old(img), off, Fill(len, b))
    {
      NoSplice(img, off);
      if len == 0 {
        assert Fill(0, b) == [];
        return;
      }
      var done := 0;
      assert Fill(0, b) == [];
      while done < len
        invariant 0 <= done <= len && |img| == old(|img|)
        invariant img == Splice(old(img), off, Fill(done, b))
      {
        var n := Min(len - done, IO_CHUNK);
        SpliceUp(old(img), off, Fill(done, b), Fill(n, b));
        assert Fill(done, b) + Fill(n, b) == Fill(done + n, b);
        WriteAt(off + done, Fill(n, b));
        done := done + n;
      }
    }

    /** memmove: the bytes that were at `src` end up at `dst`, whatever the overlap and the chunk size. */
    method CopyBytes(src: nat, dst: nat, len: nat, chunk: nat)
      requires src + len <= |img| && dst + len <= |img| && chunk > 0
      modifies this
      ensures img == Splice(old(img), dst, old(img)[src..src + len])
    {
      if len == 0 || src == dst {
        SpliceIs(img, dst, img[src..src + len]);
        return;
      }
      if dst > src && dst < src + len {
        CopyDown(src, dst, len, chunk);
      } else {
        CopyUp(src, dst, len, chunk);
      }
    }

    method CopyDown(src: nat, dst: nat, len: nat, chunk: nat)
      requires src < dst && dst + len <= |img| && chunk > 0
      modifies this
      ensures img == Splice(old(img), dst, old(img)[src..src + len])
    {
      ghost var was := img;
      var done := 0;
      assert was[src + len..src + len] == [];
      NoSplice(was, dst + len);
      while done < len
        invariant 0 <= done <= len && |img| == |was|
        invariant img == Splice(was, dst + (len - done), was[src + (len - done)..src + len])
      {
        var n := Min(len - done, chunk);
        var off := len - done - n;
        DownStep(was, img, src, dst, len, off, len - done);
        var buf := ReadAt(src + off, src + (len - done));
        WriteAt(dst + off, buf);
        done := done + n;
        assert len - done == off;
      }
    }

    method CopyUp(src: nat, dst: nat, len: nat, chunk: nat)
      requires (dst <= src || src + len <= dst) && src + len <= |img| && dst + len <= |img| && chunk > 0
      modifies this
      ensures img == Splice(old(img), dst, old(img)[src..src + len])
    {
      ghost var was := img;
      var done := 0;
      assert was[src..src] == [];
      NoSplice(was, dst);
      while done < len
        invariant 0 <= done <= len && |img| == |was|
        invariant img == Splice(was, dst, was[src..src + done])
      {
        var next := done + Min(len - done, chunk);
        UpStep(was, img, src, dst, done, next);
        var buf := ReadAt(src + done, src + next);
        WriteAt(dst + done, buf);
        done := next;
      }
    }
  }
}
