/**
 Where grow_root_file (xtask/src/fat32_write.rs) puts the longer file: in place, in the first free
 run, or, once its own clusters are given up, in the first run free then.
 */
module FatPlan {
  import opened Base
  import opened FatTable

  datatype Plan = InPlace | Moved(start: nat) | Slid(start: nat) | Refused

  /** The file: first cluster (below 2 when it has none), length of its chain, clusters its size needs now and will need. */
  datatype Need = Need(cluster: nat, n: nat, oldN: nat, newN: nat)

  /** A file of contiguous clusters, at least as many as its size needs, or without any. */
  predicate NeedOk(k: Kind, t: Table, d: Need) {
    && Numbered(k, t) && d.oldN <= d.n && d.newN > 0
    && if d.cluster >= 2 then IsRun(k, t, d.cluster, d.n) else d.n == 0
  }

  predicate CanExtend(t: Table, d: Need) {
    d.cluster >= 2 && d.oldN > 0 && (d.newN <= d.oldN || RunFree(t, d.cluster + d.oldN, d.newN - d.oldN))
  }

  function Freed(t: Table, d: Need): (u: Table)
    requires d.cluster >= 2 ==> d.cluster + d.n <= |t|
    ensures |u| == |t|
  {
    if d.cluster >= 2 then Cleared(t, d.cluster, Min(d.n, FREE_LIMIT)) else t
  }

  ghost predicate Chosen(k: Kind, t: Table, d: Need, p: Plan)
    requires NeedOk(k, t, d)
  {
    match p
    case InPlace => CanExtend(t, d)
    case Moved(s) => !CanExtend(t, d) && FirstRun(t, s, d.newN)
    case Slid(s) => !CanExtend(t, d) && NoRun(t, d.newN) && FirstRun(Freed(t, d), s, d.newN)
    case Refused => !CanExtend(t, d) && NoRun(t, d.newN) && NoRun(Freed(t, d), d.newN)
  }

  function Start(d: Need, p: Plan): nat
    requires !p.Refused?
  {
    if p.InPlace? then d.cluster else p.start
  }

  /** The table afterwards. */
  ghost function After(k: Kind, t: Table, d: Need, p: Plan): (u: Table)
    requires NeedOk(k, t, d) && Chosen(k, t, d, p)
    ensures |u| == |t|
  {
    match p
    case InPlace => Extended(k, t, d.cluster, d.oldN, d.newN)
    case Moved(s) => Freed(Marked(k, t, s, d.newN), d)
    case Slid(s) => Marked(k, Freed(t, d), s, d.newN)
    case Refused => t
  }

  lemma RunTaken(k: Kind, t: Table, s: nat, n: nat, c: nat)
    requires Numbered(k, t) && IsRun(k, t, s, n) && s <= c < s + n
    ensures t[c] != 0
  {
  }

  lemma RunsApart(k: Kind, t: Table, s: nat, n: nat, p: nat, m: nat)
    requires Numbered(k, t) && IsRun(k, t, s, n) && RunFree(t, p, m) && m > 0
    ensures p + m <= s || s + n <= p
  {
    if s < p + m {
      RunTaken(k, t, s, n, if s <= p < s + n then p else s);
    }
  }

  /** An extension starts where the chain ends. */
  lemma ExtendsAtEnd(k: Kind, t: Table, d: Need)
    requires NeedOk(k, t, d) && CanExtend(t, d) && d.newN > d.oldN
    ensures d.oldN == d.n
  {
    RunsApart(k, t, d.cluster, d.n, d.cluster + d.oldN, d.newN - d.oldN);
  }

  function Length(d: Need, p: Plan): nat {
    if p.InPlace? && d.newN <= d.oldN then d.n else d.newN
  }

  /** The entries outside the file and its new place are what they were, and the new place was free or the file's. */
  predicate Apart(t: Table, u: Table, d: Need, s: nat) {
    && |u| == |t|
    && forall c :: 0 <= c < |t| && !(d.cluster <= c < d.cluster + d.n) ==>
         if s <= c < s + d.newN then t[c] == 0 else u[c] == t[c]
  }

  /** Whatever the choice: the file ends as one run, it takes no cluster of another chain, and no other entry changes. */
  lemma PlanKeeps(k: Kind, t: Table, d: Need, p: Plan)
    requires NeedOk(k, t, d) && Chosen(k, t, d, p) && !p.Refused?
    ensures IsRun(k, After(k, t, d, p), Start(d, p), Length(d, p)) && Length(d, p) >= d.newN
    ensures Apart(t, After(k, t, d, p), d, Start(d, p))
  {
    match p
    case InPlace => InPlaceKeeps(k, t, d);
    case Moved(s) => MovedKeeps(k, t, d, s, Marked(k, t, s, d.newN));
    case Slid(s) => SlidKeeps(k, t, d, s, Freed(t, d));
  }

  lemma InPlaceKeeps(k: Kind, t: Table, d: Need)
    requires NeedOk(k, t, d) && CanExtend(t, d)
    ensures var u := Extended(k, t, d.cluster, d.oldN, d.newN);
            IsRun(k, u, d.cluster, if d.newN <= d.oldN then d.n else d.newN) && Apart(t, u, d, d.cluster)
  {
    if d.newN > d.oldN {
      ExtendsAtEnd(k, t, d);
      ExtendedIsRun(k, t, d.cluster, d.oldN, d.newN);
    }
  }

  lemma MovedKeeps(k: Kind, t: Table, d: Need, s: nat, m: Table)
    requires NeedOk(k, t, d) && RunFree(t, s, d.newN) && m == Marked(k, t, s, d.newN)
    ensures IsRun(k, Freed(m, d), s, d.newN) && Apart(t, Freed(m, d), d, s)
    ensures d.cluster >= 2 ==> IsRun(k, m, d.cluster, d.n)
  {
    if d.cluster >= 2 {
      RunsApart(k, t, d.cluster, d.n, s, d.newN);
    }
  }

  lemma SlidKeeps(k: Kind, t: Table, d: Need, s: nat, m: Table)
    requires NeedOk(k, t, d) && m == Freed(t, d) && RunFree(m, s, d.newN)
    ensures IsRun(k, Marked(k, m, s, d.newN), s, d.newN) && Apart(t, Marked(k, m, s, d.newN), d, s)
  {
  }

  /** The clusters the file gives up and does not take back are free again exactly up to the step limit: a longer chain
      leaves its rest marked and without a file. */
  lemma PlanFrees(k: Kind, t: Table, d: Need, p: Plan, c: nat)
    requires NeedOk(k, t, d) && Chosen(k, t, d, p) && (p.Moved? || p.Slid?)
    requires d.cluster >= 2 && d.cluster <= c < d.cluster + d.n && !(Start(d, p) <= c < Start(d, p) + d.newN)
    ensures After(k, t, d, p)[c] == 0 <==> c < d.cluster + 1_000_000
  {
    RunTaken(k, t, d.cluster, d.n, c);
  }

  /** Growth is refused exactly when no run is free even after giving up the file's own clusters. */
  lemma RefusedIff(k: Kind, t: Table, d: Need, p: Plan)
    requires NeedOk(k, t, d) && Chosen(k, t, d, p) && d.n <= 1_000_000
    ensures p.Refused? <==> NoRun(Freed(t, d), d.newN)
  {
    match p
    case InPlace =>
      if d.newN > d.oldN {
        ExtendsAtEnd(k, t, d);
      }
      assert RunFree(Freed(t, d), d.cluster, d.newN);
    case Moved(s) => assert RunFree(Freed(t, d), s, d.newN);
    case Slid(s) =>
    case Refused =>
  }

  /** A file moved over its own clusters moves down: had the run found started at the file or after it, the file
      could have been extended in place or moved without giving anything up. */
  lemma SlidesDown(k: Kind, t: Table, d: Need, p: Plan)
    requires NeedOk(k, t, d) && Chosen(k, t, d, p) && p.Slid? && d.cluster >= 2 && d.n == d.oldN
    ensures p.start < d.cluster < p.start + d.newN
  {
    FreeBefore(t, d, p.start, Freed(t, d));
  }

  predicate FreeAt(t: Table, c: nat) {
    c < |t| && t[c] == 0
  }

  /** A file stays where it is exactly when it has data and the clusters it needs behind its own are there and free. */
  lemma StaysIff(k: Kind, t: Table, d: Need, p: Plan)
    requires NeedOk(k, t, d) && Chosen(k, t, d, p) && !p.Refused? && d.n == d.oldN
    ensures Start(d, p) == d.cluster <==>
            d.oldN > 0 && forall c :: d.cluster + d.oldN <= c < d.cluster + d.newN ==> FreeAt(t, c)
  {
    if d.cluster >= 2 && d.newN > d.oldN {
      BehindFree(t, d);
    }
    if p.Moved? && d.cluster >= 2 {
      RunsApart(k, t, d.cluster, d.n, p.start, d.newN);
    } else if p.Slid? && d.cluster >= 2 {
      SlidesDown(k, t, d, p);
    }
  }

  lemma BehindFree(t: Table, d: Need)
    requires d.cluster >= 2 && d.newN > d.oldN > 0
    ensures (forall c :: d.cluster + d.oldN <= c < d.cluster + d.newN ==> FreeAt(t, c)) <==>
            RunFree(t, d.cluster + d.oldN, d.newN - d.oldN)
  {
    if forall c :: d.cluster + d.oldN <= c < d.cluster + d.newN ==> FreeAt(t, c) {
      assert FreeAt(t, d.cluster + d.newN - 1);
      forall c | d.cluster + d.oldN <= c < d.cluster + d.newN
        ensures t[c] == 0
      {
        assert FreeAt(t, c);
      }
    }
  }

  /** What a run free in the freed table would have allowed before. */
  lemma FreeBefore(t: Table, d: Need, s: nat, u: Table)
    requires d.cluster >= 2 && d.cluster + d.n <= |t| && d.n == d.oldN && u == Freed(t, d) && RunFree(u, s, d.newN)
    ensures s + d.newN <= d.cluster || d.cluster + d.n <= s ==> RunFree(t, s, d.newN)
    ensures d.cluster <= s < d.cluster + d.n < d.cluster + d.newN ==> RunFree(t, d.cluster + d.oldN, d.newN - d.oldN)
  {
    assert forall c :: 0 <= c < |t| && !(d.cluster <= c < d.cluster + d.n) ==> t[c] == u[c];
  }
}
