/**
 liberar_cadena of xtask/src/fat32_write.rs: every cluster of a chain is given up, whatever the chain
 looks like, cycles included.
 */
module FatRelease {
  import opened Base
  import opened Words
  import opened FatTable
  import opened Disk
  import opened FatVolume
  import opened FatFrame
  import opened FatGrow

  function NonZero(t: Table): nat {
    if t == [] then 0 else (if t[0] != 0 then 1 else 0) + NonZero(t[1..])
  }

  lemma {:induction false} ZeroedIsLess(t: Table, c: nat)
    requires c < |t| && t[c] != 0
    ensures NonZero(t[c := 0]) < NonZero(t)
  {
    if c == 0 {
      assert t[c := 0][1..] == t[1..];
    } else {
      assert t[c := 0][1..] == t[1..][c - 1 := 0];
      ZeroedIsLess(t[1..], c - 1);
    }
  }

  /** The links from `c` on lead to clusters of the table, to a free one or to an end. */
  predicate LinksOk(k: Kind, t: Table, c: nat)
    decreases NonZero(t), c
  {
    if c < 2 || c >= EocMark(k) then true
    else if c >= |t| then false
    else if t[c] == 0 then true
    else
      ZeroedIsLess(t, c);
      LinksOk(k, t[c := 0], t[c])
  }

  /** The table after following the links from `c`, clearing each entry. */
  function Released(k: Kind, t: Table, c: nat): (u: Table)
    ensures |u| == |t|
    decreases NonZero(t), c
  {
    if c < 2 || c >= EocMark(k) || c >= |t| || t[c] == 0 then t
    else
      ZeroedIsLess(t, c);
      Released(k, t[c := 0], t[c])
  }

  /** Nothing but links to zero. */
  lemma {:induction false} ReleasedOnly(k: Kind, t: Table, c: nat, x: nat)
    requires x < |t|
    ensures Released(k, t, c)[x] == t[x] || Released(k, t, c)[x] == 0
    ensures Released(k, t, c)[x] != t[x] ==> exists fuel: nat :: x in Walk(k, t, c, fuel)
    decreases NonZero(t), c
  {
    if !(c < 2 || c >= EocMark(k) || c >= |t| || t[c] == 0) {
      var t' := t[c := 0];
      ZeroedIsLess(t, c);
      ReleasedOnly(k, t', t[c], x);
      if x == c {
        assert x in Walk(k, t, c, 1);
      } else if Released(k, t, c)[x] != t[x] {
        var fuel: nat :| x in Walk(k, t', t[c], fuel);
        FewerLinks(k, t, t', t[c], fuel, x);
        assert x in Walk(k, t, c, fuel + 1);
      }
    }
  }

  /** Clearing entries only shortens walks. */
  lemma {:induction false} FewerLinks(k: Kind, t: Table, u: Table, c: nat, fuel: nat, x: nat)
    requires |u| == |t| && (forall i :: 0 <= i < |t| ==> u[i] == t[i] || u[i] == 0) && x in Walk(k, u, c, fuel)
    ensures x in Walk(k, t, c, fuel)
    decreases fuel
  {
    if x != c {
      FewerLinks(k, t, u, u[c], fuel - 1, x);
    }
  }

  /** A cleared entry's link leads to a cleared entry. */
  predicate Closed(k: Kind, t: Table, u: Table) {
    && |u| == |t|
    && forall x :: 0 <= x < |t| && t[x] != 0 && u[x] == 0 ==> EndsOrFree(k, t, u, t[x])
  }

  predicate EndsOrFree(k: Kind, t: Table, u: Table, c: nat)
    requires |u| == |t|
  {
    c < 2 || c >= EocMark(k) || c >= |t| || u[c] == 0
  }

  lemma {:induction false} ReleasedClosed(k: Kind, t: Table, c: nat)
    ensures Closed(k, t, Released(k, t, c)) && EndsOrFree(k, t, Released(k, t, c), c)
    decreases NonZero(t), c
  {
    if !(c < 2 || c >= EocMark(k) || c >= |t| || t[c] == 0) {
      ZeroedIsLess(t, c);
      ReleasedClosed(k, t[c := 0], t[c]);
      StaysZero(k, t[c := 0], t[c], c);
    }
  }

  lemma {:induction false} StaysZero(k: Kind, t: Table, c: nat, x: nat)
    requires x < |t| && t[x] == 0
    ensures Released(k, t, c)[x] == 0
    decreases NonZero(t), c
  {
    if !(c < 2 || c >= EocMark(k) || c >= |t| || t[c] == 0) {
      ZeroedIsLess(t, c);
      StaysZero(k, t[c := 0], t[c], x);
    }
  }

  lemma {:induction false} WalkCleared(k: Kind, t: Table, u: Table, c: nat, fuel: nat, x: nat)
    requires Numbered(k, t) && Closed(k, t, u) && EndsOrFree(k, t, u, c) && x in Walk(k, t, c, fuel)
    requires forall i :: 0 <= i < |t| && t[i] == 0 ==> u[i] == 0
    ensures u[x] == 0
    decreases fuel
  {
    if x != c {
      WalkCleared(k, t, u, t[c], fuel - 1, x);
    }
  }

  /** Exactly the clusters on the chain are free afterwards, besides those that were; no other entry changes. */
  lemma ReleasedIsChain(k: Kind, t: Table, c: nat, x: nat)
    requires Numbered(k, t) && x < |t|
    ensures (exists fuel: nat :: x in Walk(k, t, c, fuel)) ==> Released(k, t, c)[x] == 0
    ensures !(exists fuel: nat :: x in Walk(k, t, c, fuel)) ==> Released(k, t, c)[x] == t[x]
  {
    ReleasedOnly(k, t, c, x);
    if fuel: nat :| x in Walk(k, t, c, fuel) {
      ReleasedClosed(k, t, c);
      forall i | 0 <= i < |t| && t[i] == 0
        ensures Released(k, t, c)[i] == 0
      {
        StaysZero(k, t, c, i);
      }
      WalkCleared(k, t, Released(k, t, c), c, fuel, x);
    }
  }

  /** Marking a free run and releasing it restores the table. */
  lemma MarkThenRelease(k: Kind, t: Table, s: nat, n: nat)
    requires Numbered(k, t) && RunFree(t, s, n) && n > 0
    ensures Released(k, Marked(k, t, s, n), s) == t
  {
    LinkNone(Marked(k, t, s, n), s);
    ReleaseRun(k, t, s, n, s);
  }

  /** Partly released: the clusters from `c` on are still marked. */
  lemma {:induction false} ReleaseRun(k: Kind, t: Table, s: nat, n: nat, c: nat)
    requires Numbered(k, t) && RunFree(t, s, n) && s <= c < s + n
    ensures Released(k, Cleared(Marked(k, t, s, n), s, c - s), c) == t
    decreases s + n - c
  {
    var m := Marked(k, t, s, n);
    var u := Cleared(m, s, c - s);
    ZeroedIsLess(u, c);
    assert u[c := 0] == Cleared(m, s, c + 1 - s);
    if c + 1 < s + n {
      ReleaseRun(k, t, s, n, c + 1);
    } else {
      assert Cleared(m, s, n) == t;
      assert Released(k, t, EocValue(k)) == t;
    }
  }

  // ---------------------------------------------------------------- editing the buffer

  lemma ViewZero(k: Kind, buf: Bytes, c: nat)
    requires c < Count(k, buf)
    ensures Offset(k, c + 1) <= |buf| && View(k, PutWord(k, buf, c, 0)) == View(k, buf)[c := 0]
  {
    ExpValues();
    forall d | 0 <= d < Count(k, buf)
      ensures View(k, PutWord(k, buf, c, 0))[d] == View(k, buf)[c := 0][d]
    {
      WordPut(k, buf, c, 0, d);
    }
  }

  /** The whole word of an entry is cleared, reserved bits included. */
  method ClearWord(k: Kind, fat: array<byte>, c: nat)
    requires c < Count(k, fat[..])
    modifies fat
    ensures View(k, fat[..]) == View(k, old(fat[..]))[c := 0]
  {
    ViewZero(k, fat[..], c);
    Overwrite(fat, Offset(k, c), LE(0, Width(k)));
  }

  method ClearChain(k: Kind, fat: array<byte>, first: nat)
    requires Numbered(k, View(k, fat[..])) && LinksOk(k, View(k, fat[..]), first)
    modifies fat
    ensures View(k, fat[..]) == Released(k, View(k, old(fat[..])), first)
  {
    ghost var t := View(k, fat[..]);
    var c: nat := first;
    while c >= 2 && c < EocMark(k)
      invariant |View(k, fat[..])| == |t| && LinksOk(k, View(k, fat[..]), c)
      invariant Released(k, View(k, fat[..]), c) == Released(k, t, first)
      decreases NonZero(View(k, fat[..])), c
    {
      ghost var u := View(k, fat[..]);
      var next := FatEntry(k, fat, c);
      ClearWord(k, fat, c);
      ReleaseStep(k, u, c);
      c := next;
    }
  }

  lemma ReleaseStep(k: Kind, u: Table, c: nat)
    requires 2 <= c < |u| && c < EocMark(k) && LinksOk(k, u, c)
    ensures LinksOk(k, u[c := 0], u[c]) && Released(k, u[c := 0], u[c]) == Released(k, u, c)
    ensures NonZero(u[c := 0]) < NonZero(u) || (u[c] == 0 && u[c := 0] == u)
  {
    if u[c] != 0 {
      ZeroedIsLess(u, c);
    } else {
      assert u[c := 0] == u;
    }
  }

  /** Every copy of the table is written. */
  method LiberarCadena(disk: Image, vol: Vol, fat: array<byte>, first: nat)
    requires Loaded(disk.img, vol, fat) && LinksOk(vol.kind, Fat(disk.img, vol), first)
    modifies disk, fat
    ensures Holds(disk.img, vol) && Mirrored(disk.img, vol)
    ensures Fat(disk.img, vol) == Released(vol.kind, old(Fat(disk.img, vol)), first)
    ensures disk.img == PutFats(old(disk.img), vol, fat[..])
  {
    ClearChain(vol.kind, fat, first);
    PutFatsRead(disk.img, vol, fat[..]);
    WriteFats(disk, vol, fat);
  }
}
