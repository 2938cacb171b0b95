/**
 Registering the normal and the rescue boot entry, and the mailbox that asks for it
 (boot-shim/src/bootentry.rs).
 */
module BootRegister {
  import opened Base
  import opened Words
  import opened Utf16
  import opened BootEntry

  type Vars = seq<Var>

  // ---------------------------------------------------------------- the variables of the firmware

  function Get(vars: Vars, name: string): Option<Bytes> {
    if vars == [] then None
    else if vars[0].name == name then Some(vars[0].value)
    else Get(vars[1..], name)
  }

  /** The value of the variable of that name replaced. */
  function Replaced(vars: Vars, name: string, value: Bytes): (r: Vars)
    ensures |r| == |vars|
  {
    if vars == [] then []
    else if vars[0].name == name then [Var(name, value)] + vars[1..]
    else [vars[0]] + Replaced(vars[1..], name, value)
  }

  predicate AddedAt(was: Vars, now: Vars, v: Var, k: nat) {
    k <= |was| && now == was[..k] + [v] + was[k..]
  }

  /** A variable that exists keeps its place; a new one may come anywhere in the enumeration. */
  ghost predicate SetTo(was: Vars, now: Vars, name: string, value: Bytes) {
    if Get(was, name).Some? then now == Replaced(was, name, value)
    else exists k: nat :: AddedAt(was, now, Var(name, value), k)
  }

  /** The number of the first entry enumerated that has this description. */
  function Owner(vars: Vars, desc: Units): Option<nat> {
    if vars == [] then None
    else if NumberOf(vars[0].name).Some? && DescriptionOf(vars[0].value) == Some(desc) then NumberOf(vars[0].name)
    else Owner(vars[1..], desc)
  }

  function Used(vars: Vars): set<nat> {
    if vars == [] then {}
    else (match NumberOf(vars[0].name) case None => {} case Some(n) => {n}) + Used(vars[1..])
  }

  /** The number an entry gets: the one it has, else the lowest free one, else the last. */
  ghost predicate Chosen(vars: Vars, desc: Units, num: nat) {
    match Owner(vars, desc)
    case Some(n) => num == n
    case None =>
      if AllUsed(vars) then num == LAST
      else num <= LAST && num !in Used(vars) && forall m: nat :: m < num ==> m in Used(vars)
  }

  ghost predicate AllUsed(vars: Vars) {
    forall m: nat :: m <= LAST ==> m in Used(vars)
  }

  /** Names that look like boot entries are written as this module writes them. */
  predicate Canonical(vars: Vars) {
    forall i :: 0 <= i < |vars| ==> CanonicalName(vars[i].name)
  }

  predicate Unique(vars: Vars) {
    forall i, j :: 0 <= i < j < |vars| ==> vars[i].name != vars[j].name
  }

  predicate CanonicalName(name: string) {
    NumberOf(name).Some? ==> NumberOf(name).value <= LAST && name == BootName(NumberOf(name).value)
  }

  /** BootOrder as numbers; a missing variable is an empty order. */
  function OrderOf(vars: Vars): Units {
    match Get(vars, ORDER) case None => [] case Some(b) => Order(b)
  }

  /** A variable the firmware was asked to set, and whether it did. */
  datatype Try = Try(name: string, value: Bytes, accepted: bool)

  class Firmware {
    var vars: Vars
    ghost var tried: seq<Try>

    /** The firmware may refuse. */
    method SetVariable(name: string, value: Bytes) returns (ok: bool)
      modifies this
      ensures tried == old(tried) + [Try(name, value, ok)]
      ensures ok ==> SetTo(old(vars), vars, name, value)
      ensures !ok ==> vars == old(vars)
    {
      ok := *;
      tried := tried + [Try(name, value, ok)];
      if !ok {
        return;
      }
      if Get(vars, name).Some? {
        vars := Replaced(vars, name, value);
        return;
      }
      var k: nat :| k <= |vars|;
      assert AddedAt(vars, vars[..k] + [Var(name, value)] + vars[k..], Var(name, value), k);
      vars := vars[..k] + [Var(name, value)] + vars[k..];
    }

    method HuecoBoot(desc: Units) returns (num: nat)
      ensures Chosen(vars, desc, num) && num <= LAST
    {
      var used: set<nat> := {};
      assert vars[0..] == vars;
      for i := 0 to |vars|
        invariant Owner(vars, desc) == Owner(vars[i..], desc) && Used(vars) == used + Used(vars[i..])
      {
        assert vars[i..][0] == vars[i] && vars[i..][1..] == vars[i + 1..];
        var n := NumberOf(vars[i].name);
        if n.Some? {
          NumberBound(vars[i].name);
          used := used + {n.value};
          var d := Descripcion(vars[i].value);
          if d == Some(desc) {
            return n.value;
          }
        }
      }
      num := FirstUnused(used);
    }

    method ColocarEnBootOrder(num: Word, first: bool) returns (ok: bool)
      modifies this
      ensures ok ==> SetTo(old(vars), vars, ORDER, Encode(Reorder(OrderOf(old(vars)), num, first)))
      ensures !ok ==> vars == old(vars)
      ensures tried == old(tried) + [OrderTry(old(vars), num, first, ok)]
    {
      var order := Reorder(OrderOf(vars), num, first);
      ok := SetVariable(ORDER, Encode(order));
    }

    /** `dp` is the loader's device path, if the partition was found. A normal entry has no optional data. */
    method Registrar(dp: Option<Bytes>, desc: Units, data: Option<Units>) returns (r: Outcome, ghost mid: Vars)
      modifies this
      ensures Registered(old(vars), mid, vars, dp, desc, data, r)
      ensures tried == old(tried) + Tries(mid, dp, desc, data, r)
    {
      mid := vars;
      if dp.None? {
        r := NoPartition;
        return;
      }
      var num := HuecoBoot(desc);
      var ok := SetVariable(BootName(num), LoadOption(dp.value, desc, data));
      if !ok {
        r := Refused(num);
        return;
      }
      mid := vars;
      ok := ColocarEnBootOrder(num, data.None?);
      r := if ok then Ordered(num) else Unordered(num);
    }
  }

  method FirstUnused(used: set<nat>) returns (num: nat)
    ensures if forall m: nat :: m <= LAST ==> m in used then num == LAST
            else num <= LAST && num !in used && forall m: nat :: m < num ==> m in used
    ensures num <= LAST
  {
    num := 0;
    while num <= LAST
      invariant num <= LAST + 1 && forall m: nat :: m < num ==> m in used
    {
      if num !in used {
        return;
      }
      num := num + 1;
    }
    num := LAST;
  }

  /** How a registration ends: in the order, or with the entry but not in the order, or without it. */
  datatype Outcome = Ordered(num: nat) | Unordered(num: nat) | Refused(num: nat) | NoPartition

  /** `mid` is the state once the entry is written. */
  ghost predicate Registered(was: Vars, mid: Vars, now: Vars, dp: Option<Bytes>, desc: Units, data: Option<Units>, r: Outcome) {
    match r
    case NoPartition => dp.None? && now == was
    case Refused(n) => dp.Some? && Chosen(was, desc, n) && n <= LAST && now == was
    case Unordered(n) => Written(was, mid, dp, desc, data, n) && now == mid
    case Ordered(n) =>
      Written(was, mid, dp, desc, data, n) && SetTo(mid, now, ORDER, Encode(Reorder(OrderOf(mid), n, data.None?)))
  }

  function OrderTry(vars: Vars, num: Word, first: bool, accepted: bool): Try {
    Try(ORDER, Encode(Reorder(OrderOf(vars), num, first)), accepted)
  }

  /** What the firmware was asked during a registration: the outcome is decided by its answers alone. */
  function Tries(mid: Vars, dp: Option<Bytes>, desc: Units, data: Option<Units>, r: Outcome): seq<Try> {
    match r
    case NoPartition => []
    case Refused(n) => EntryTry(dp, desc, data, n, false)
    case Unordered(n) => EntryTry(dp, desc, data, n, true) + (if n <= LAST then [OrderTry(mid, n, data.None?, false)] else [])
    case Ordered(n) => EntryTry(dp, desc, data, n, true) + (if n <= LAST then [OrderTry(mid, n, data.None?, true)] else [])
  }

  function EntryTry(dp: Option<Bytes>, desc: Units, data: Option<Units>, n: nat, accepted: bool): seq<Try> {
    if dp.Some? && n <= LAST then [Try(BootName(n), LoadOption(dp.value, desc, data), accepted)] else []
  }

  ghost predicate Written(was: Vars, mid: Vars, dp: Option<Bytes>, desc: Units, data: Option<Units>, n: nat) {
    dp.Some? && Chosen(was, desc, n) && n <= LAST && SetTo(was, mid, BootName(n), LoadOption(dp.value, desc, data))
  }

  // ---------------------------------------------------------------- one variable set

  lemma {:induction false} ReplacedGets(vars: Vars, name: string, value: Bytes, other: string)
    requires Get(vars, name).Some?
    ensures Get(Replaced(vars, name, value), other) == if other == name then Some(value) else Get(vars, other)
  {
    if vars[0].name != name {
      ReplacedGets(vars[1..], name, value, other);
    }
  }

  lemma AddedRest(was: Vars, now: Vars, v: Var, k: nat)
    requires AddedAt(was, now, v, k)
    ensures now != []
    ensures k == 0 ==> now[0] == v && now[1..] == was
    ensures k > 0 ==> was != [] && now[0] == was[0] && AddedAt(was[1..], now[1..], v, k - 1)
  {
    if k == 0 {
      assert now[1..] == was;
    } else {
      assert was[..k][1..] == was[1..][..k - 1] && was[k..] == was[1..][k - 1..];
      assert now[1..] == was[..k][1..] + [v] + was[k..];
    }
  }

  lemma {:induction false} AddedGets(was: Vars, now: Vars, v: Var, k: nat, other: string)
    requires AddedAt(was, now, v, k) && Get(was, v.name).None?
    ensures Get(now, other) == if other == v.name then Some(v.value) else Get(was, other)
    decreases k
  {
    AddedRest(was, now, v, k);
    if k > 0 {
      AddedGets(was[1..], now[1..], v, k - 1, other);
    }
  }

  lemma SetGets(was: Vars, now: Vars, name: string, value: Bytes, other: string)
    requires SetTo(was, now, name, value)
    ensures Get(now, other) == if other == name then Some(value) else Get(was, other)
  {
    if Get(was, name).Some? {
      ReplacedGets(was, name, value, other);
    } else {
      var k: nat :| AddedAt(was, now, Var(name, value), k);
      AddedGets(was, now, Var(name, value), k, other);
    }
  }

  lemma {:induction false} ReplacedSame(vars: Vars, name: string, value: Bytes)
    requires Get(vars, name) == Some(value)
    ensures Replaced(vars, name, value) == vars
  {
    if vars[0].name != name {
      ReplacedSame(vars[1..], name, value);
    }
  }

  lemma {:induction false} GetIn(vars: Vars, name: string)
    ensures Get(vars, name).Some? <==> exists i :: 0 <= i < |vars| && vars[i].name == name
  {
    if vars != [] && vars[0].name != name {
      GetIn(vars[1..], name);
      if i :| 0 <= i < |vars| && vars[i].name == name {
        assert vars[1..][i - 1].name == name;
      }
    }
  }

  lemma {:induction false} ReplacedNames(vars: Vars, name: string, value: Bytes, i: nat)
    requires i < |vars|
    ensures Replaced(vars, name, value)[i].name == vars[i].name
  {
    if vars[0].name != name && i > 0 {
      ReplacedNames(vars[1..], name, value, i - 1);
    }
  }

  lemma SetCanonical(was: Vars, now: Vars, name: string, value: Bytes)
    requires SetTo(was, now, name, value) && Canonical(was) && CanonicalName(name)
    ensures Canonical(now)
  {
    if Get(was, name).Some? {
      forall i | 0 <= i < |now|
        ensures CanonicalName(now[i].name)
      {
        ReplacedNames(was, name, value, i);
        assert CanonicalName(was[i].name);
      }
    } else {
      var k: nat :| AddedAt(was, now, Var(name, value), k);
      forall i | 0 <= i < |now|
        ensures CanonicalName(now[i].name)
      {
        assert i < k ==> now[i] == was[i];
        assert i > k ==> now[i] == was[i - 1];
      }
    }
  }

  lemma SetUnique(was: Vars, now: Vars, name: string, value: Bytes)
    requires SetTo(was, now, name, value) && Unique(was)
    ensures Unique(now)
  {
    GetIn(was, name);
    if Get(was, name).Some? {
      forall i, j | 0 <= i < j < |now|
        ensures now[i].name != now[j].name
      {
        ReplacedNames(was, name, value, i);
        ReplacedNames(was, name, value, j);
      }
    } else {
      var k: nat :| AddedAt(was, now, Var(name, value), k);
      forall i | 0 <= i < |now|
        ensures now[i] == if i < k then was[i] else if i == k then Var(name, value) else was[i - 1]
      {
      }
    }
  }

  /** An entry that was there is still the first with its description, unless that very entry is written, or one that
      takes the description. */
  lemma {:induction false} OwnerReplaced(vars: Vars, name: string, value: Bytes, desc: Units, n: nat)
    requires Canonical(vars) && Owner(vars, desc) == Some(n) && n <= LAST && name != BootName(n)
    requires NumberOf(name).None? || DescriptionOf(value) != Some(desc)
    ensures Owner(Replaced(vars, name, value), desc) == Some(n)
  {
    assert CanonicalName(vars[0].name);
    if !(NumberOf(vars[0].name).Some? && DescriptionOf(vars[0].value) == Some(desc)) {
      assert Canonical(vars[1..]) by {
        assert forall i :: 0 <= i < |vars[1..]| ==> vars[1..][i] == vars[i + 1];
      }
      if vars[0].name != name {
        OwnerReplaced(vars[1..], name, value, desc, n);
      }
    }
  }

  lemma {:induction false} OwnerAdded(was: Vars, now: Vars, v: Var, k: nat, desc: Units)
    requires AddedAt(was, now, v, k) && (NumberOf(v.name).None? || DescriptionOf(v.value) != Some(desc))
    ensures Owner(now, desc) == Owner(was, desc)
    decreases k
  {
    AddedRest(was, now, v, k);
    if k > 0 {
      OwnerAdded(was[1..], now[1..], v, k - 1, desc);
    }
  }

  lemma OwnerKept(was: Vars, now: Vars, name: string, value: Bytes, desc: Units, n: nat)
    requires SetTo(was, now, name, value) && Canonical(was) && Owner(was, desc) == Some(n) && n <= LAST && name != BootName(n)
    requires NumberOf(name).None? || DescriptionOf(value) != Some(desc)
    ensures Owner(now, desc) == Some(n)
  {
    if Get(was, name).Some? {
      OwnerReplaced(was, name, value, desc, n);
    } else {
      var k: nat :| AddedAt(was, now, Var(name, value), k);
      OwnerAdded(was, now, Var(name, value), k, desc);
    }
  }

  lemma {:induction false} OwnerTakenReplaced(vars: Vars, value: Bytes, desc: Units, n: nat)
    requires Canonical(vars) && n <= LAST && Get(vars, BootName(n)).Some? && DescriptionOf(value) == Some(desc)
    requires Owner(vars, desc) == Some(n) || Owner(vars, desc) == None
    ensures Owner(Replaced(vars, BootName(n), value), desc) == Some(n)
  {
    NumberOfName(n);
    assert CanonicalName(vars[0].name);
    if vars[0].name != BootName(n) {
      assert Canonical(vars[1..]) by {
        assert forall i :: 0 <= i < |vars[1..]| ==> vars[1..][i] == vars[i + 1];
      }
      OwnerTakenReplaced(vars[1..], value, desc, n);
    }
  }

  lemma {:induction false} OwnerTakenAdded(was: Vars, now: Vars, v: Var, k: nat, desc: Units, n: nat)
    requires AddedAt(was, now, v, k) && Owner(was, desc) == None
    requires NumberOf(v.name) == Some(n) && DescriptionOf(v.value) == Some(desc)
    ensures Owner(now, desc) == Some(n)
    decreases k
  {
    AddedRest(was, now, v, k);
    if k > 0 {
      OwnerTakenAdded(was[1..], now[1..], v, k - 1, desc, n);
    }
  }

  lemma {:induction false} OwnerNamed(vars: Vars, desc: Units, n: nat)
    requires Canonical(vars) && Owner(vars, desc) == Some(n)
    ensures n <= LAST && Get(vars, BootName(n)).Some? && n in Used(vars)
  {
    assert CanonicalName(vars[0].name);
    if !(NumberOf(vars[0].name).Some? && DescriptionOf(vars[0].value) == Some(desc)) {
      assert Canonical(vars[1..]) by {
        assert forall i :: 0 <= i < |vars[1..]| ==> vars[1..][i] == vars[i + 1];
      }
      OwnerNamed(vars[1..], desc, n);
    }
  }

  /** The entry written is then the one found for its description. */
  lemma OwnerTaken(was: Vars, now: Vars, value: Bytes, desc: Units, n: nat)
    requires Canonical(was) && Chosen(was, desc, n) && n <= LAST && DescriptionOf(value) == Some(desc)
    requires SetTo(was, now, BootName(n), value)
    ensures Owner(now, desc) == Some(n)
  {
    NumberOfName(n);
    if Owner(was, desc).Some? {
      OwnerNamed(was, desc, n);
    }
    if Get(was, BootName(n)).Some? {
      OwnerTakenReplaced(was, value, desc, n);
    } else {
      var k: nat :| AddedAt(was, now, Var(BootName(n), value), k);
      OwnerTakenAdded(was, now, Var(BootName(n), value), k, desc, n);
    }
  }

  lemma OrderName()
    ensures NumberOf(ORDER) == None && CanonicalName(ORDER)
  {
  }

  lemma NamesDiffer(a: nat, b: nat)
    requires a <= LAST && b <= LAST
    ensures BootName(a) == BootName(b) <==> a == b
    ensures BootName(a) != ORDER && CanonicalName(BootName(a))
  {
    NumberOfName(a);
    NumberOfName(b);
  }

  predicate NonZero(desc: Units) {
    forall k :: 0 <= k < |desc| ==> desc[k] != 0
  }

  // ---------------------------------------------------------------- the pair of registrations

  /** What both registrations write, and the numbers they got. */
  datatype Pair = Pair(dp: Bytes, normal: Units, rescue: Units, signal: Units, n: nat, r: nat)

  predicate PairOk(p: Pair) {
    p.normal != p.rescue && NonZero(p.normal) && NonZero(p.rescue) && Paired(p.normal) && Paired(p.rescue)
  }

  const NORMAL: string := "soso"
  const RESCUE: string := "soso \U{2014} recuperar versi\U{F3}n anterior"

  /** The two descriptions in use are such a pair. */
  lemma SourcePair(p: Pair)
    requires p.normal == UnitsOf(NORMAL) && p.rescue == UnitsOf(RESCUE)
    ensures PairOk(p)
  {
    assert |p.normal| == 4 != |p.rescue|;
    PlainText(p.normal);
    PlainText(p.rescue);
  }

  /** The normal entry, then the rescue entry, both with success; `a`, `b`, `c` are the states in between. */
  ghost predicate Both(s: Vars, a: Vars, b: Vars, c: Vars, d: Vars, p: Pair) {
    && Registered(s, a, b, Some(p.dp), p.normal, None, Ordered(p.n))
    && Registered(b, c, d, Some(p.dp), p.rescue, Some(p.signal), Ordered(p.r))
  }

  function NormalOption(p: Pair): Bytes {
    LoadOption(p.dp, p.normal, None)
  }

  function RescueOption(p: Pair): Bytes {
    LoadOption(p.dp, p.rescue, Some(p.signal))
  }

  lemma Described(p: Pair)
    requires PairOk(p)
    ensures DescriptionOf(NormalOption(p)) == Some(p.normal) && DescriptionOf(RescueOption(p)) == Some(p.rescue)
  {
    DescriptionReadsBack(p.dp, p.normal, None);
    DescriptionReadsBack(p.dp, p.rescue, Some(p.signal));
  }

  /** After the first registration. */
  lemma AfterNormal(s: Vars, a: Vars, b: Vars, c: Vars, d: Vars, p: Pair)
    requires Both(s, a, b, c, d, p) && Canonical(s) && PairOk(p)
    ensures Unique(s) ==> Unique(b)
    ensures Canonical(b) && Owner(b, p.normal) == Some(p.n) && p.n in Used(b) && p.n <= LAST && p.r <= LAST
  {
    Described(p);
    OrderName();
    NamesDiffer(p.n, p.n);
    SetCanonical(s, a, BootName(p.n), NormalOption(p));
    SetCanonical(a, b, ORDER, Encode(Reorder(OrderOf(a), p.n, true)));
    if Unique(s) {
      SetUnique(s, a, BootName(p.n), NormalOption(p));
      SetUnique(a, b, ORDER, Encode(Reorder(OrderOf(a), p.n, true)));
    }
    OwnerTaken(s, a, NormalOption(p), p.normal, p.n);
    OwnerKept(a, b, ORDER, Encode(Reorder(OrderOf(a), p.n, true)), p.normal, p.n);
    OwnerNamed(b, p.normal, p.n);
  }

  /** Number `x` has an entry. */
  predicate Taken(vars: Vars, x: nat)
    requires x <= LAST
  {
    Get(vars, BootName(x)).Some?
  }

  /** The entry of number `x` has this description. */
  predicate Describes(vars: Vars, desc: Units, x: nat)
    requires x <= LAST
  {
    Taken(vars, x) && DescriptionOf(Get(vars, BootName(x)).value) == Some(desc)
  }

  /** Every number below the last is taken, none of them by a rescue entry, and the normal entry, if there is one, has the
      last number. The last number itself may be free. */
  ghost predicate Crowded(vars: Vars, normal: Units, rescue: Units) {
    && (forall x: nat :: x < LAST ==> Taken(vars, x) && !Describes(vars, rescue, x))
    && (Owner(vars, normal) == None || Owner(vars, normal) == Some(LAST))
  }

  lemma {:induction false} UsedIsTaken(vars: Vars, x: nat)
    requires Canonical(vars) && x <= LAST
    ensures x in Used(vars) <==> Taken(vars, x)
  {
    NumberOfName(x);
    if vars != [] {
      assert CanonicalName(vars[0].name);
      assert Canonical(vars[1..]) by {
        assert forall i :: 0 <= i < |vars[1..]| ==> vars[1..][i] == vars[i + 1];
      }
      UsedIsTaken(vars[1..], x);
    }
  }

  /** With one variable for each name, an owner is found exactly when some number has the description. */
  lemma OwnerIsDescribed(vars: Vars, desc: Units)
    requires Canonical(vars) && Unique(vars)
    ensures Owner(vars, desc).Some? ==> Owner(vars, desc).value <= LAST && Describes(vars, desc, Owner(vars, desc).value)
    ensures Owner(vars, desc).None? ==> forall x: nat :: x <= LAST ==> !Describes(vars, desc, x)
  {
    if Owner(vars, desc).Some? {
      var i := OwnerAt(vars, desc);
      assert CanonicalName(vars[i].name);
      GetAt(vars, i);
    } else {
      forall x: nat | x <= LAST
        ensures !Describes(vars, desc, x)
      {
        NumberOfName(x);
        NotOwned(vars, desc, x);
      }
    }
  }

  lemma {:induction false} GetAt(vars: Vars, i: nat)
    requires Unique(vars) && i < |vars|
    ensures Get(vars, vars[i].name) == Some(vars[i].value)
  {
    if i > 0 {
      assert Unique(vars[1..]) by {
        assert forall k :: 0 <= k < |vars[1..]| ==> vars[1..][k] == vars[k + 1];
      }
      GetAt(vars[1..], i - 1);
    }
  }

  lemma {:induction false} NotOwned(vars: Vars, desc: Units, x: nat)
    requires x <= LAST && Owner(vars, desc).None? && NumberOf(BootName(x)) == Some(x)
    ensures !Describes(vars, desc, x)
  {
    if vars != [] && vars[0].name != BootName(x) {
      NotOwned(vars[1..], desc, x);
    }
  }

  /** The two entries get the same number, and the rescue entry overwrites the normal one, exactly when the variables were
      crowded before. One free number is not enough: it may be the last. */
  lemma NumbersDiffer(s: Vars, a: Vars, b: Vars, c: Vars, d: Vars, p: Pair)
    requires Both(s, a, b, c, d, p) && Canonical(s) && Unique(s) && PairOk(p)
    ensures p.n == p.r <==> Crowded(s, p.normal, p.rescue)
  {
    AfterNormal(s, a, b, c, d, p);
    Described(p);
    forall x: nat | x <= LAST
      ensures Get(b, BootName(x)) == if x == p.n then Some(NormalOption(p)) else Get(s, BootName(x))
      ensures x in Used(b) <==> Taken(b, x)
      ensures x in Used(s) <==> Taken(s, x)
    {
      NamesDiffer(x, p.n);
      SetGets(s, a, BootName(p.n), NormalOption(p), BootName(x));
      SetGets(a, b, ORDER, Encode(Reorder(OrderOf(a), p.n, true)), BootName(x));
      UsedIsTaken(s, x);
      UsedIsTaken(b, x);
    }
    OwnerIsDescribed(b, p.rescue);
    OwnerIsDescribed(s, p.normal);
    if Owner(b, p.rescue) == Some(p.n) {
      OwnersShare(b, p.normal, p.rescue, p.n);
    }
    if Crowded(s, p.normal, p.rescue) {
      CrowdedChooses(s, b, p);
    } else if p.n == p.r {
      SharedMeansCrowded(s, b, p);
    }
  }

  lemma CrowdedChooses(s: Vars, b: Vars, p: Pair)
    requires Crowded(s, p.normal, p.rescue) && Chosen(s, p.normal, p.n) && Chosen(b, p.rescue, p.r) && p.n <= LAST && p.r <= LAST
    requires forall x: nat :: x <= LAST ==> (x in Used(b) <==> Taken(b, x)) && (x in Used(s) <==> Taken(s, x))
    requires forall x: nat :: x <= LAST ==>
               Get(b, BootName(x)) == if x == p.n then Some(NormalOption(p)) else Get(s, BootName(x))
    requires p.normal != p.rescue && DescriptionOf(NormalOption(p)) == Some(p.normal)
    requires Owner(b, p.rescue).Some? ==> Owner(b, p.rescue).value <= LAST && Describes(b, p.rescue, Owner(b, p.rescue).value)
    ensures p.n == LAST && p.r == LAST
  {
    assert forall x: nat :: x <= LAST ==> Taken(b, x);
  }

  lemma SharedMeansCrowded(s: Vars, b: Vars, p: Pair)
    requires p.n == p.r && Owner(b, p.rescue).None? && Chosen(s, p.normal, p.n) && Chosen(b, p.rescue, p.r) && p.n <= LAST
    requires forall x: nat :: x <= LAST ==> (x in Used(b) <==> Taken(b, x)) && (x in Used(s) <==> Taken(s, x))
    requires forall x: nat :: x <= LAST ==>
               Get(b, BootName(x)) == if x == p.n then Some(NormalOption(p)) else Get(s, BootName(x))
    requires forall x: nat :: x <= LAST ==> !Describes(b, p.rescue, x)
    requires p.n in Used(b)
    ensures Crowded(s, p.normal, p.rescue)
  {
    assert AllUsed(b);
    forall x: nat | x < LAST
      ensures Taken(s, x) && !Describes(s, p.rescue, x)
    {
      assert x in Used(b) && !Describes(b, p.rescue, x);
      assert Get(b, BootName(x)) == Get(s, BootName(x));
    }
  }

  /** Such variables exist: an entry without a description for every number but the last. */
  lemma CrowdedExists(normal: Units, rescue: Units, s: Vars)
    requires s == seq(LAST, (i: nat) => Var(if i <= LAST then BootName(i) else "", []))
    ensures Canonical(s) && Unique(s) && Crowded(s, normal, rescue) && !Taken(s, LAST)
  {
    forall i | 0 <= i < |s|
      ensures s[i] == Var(BootName(i), []) && NumberOf(s[i].name) == Some(i)
    {
      NumberOfName(i);
    }
    forall i, j | 0 <= i < j < |s|
      ensures s[i].name != s[j].name
    {
      NamesDiffer(i, j);
    }
    forall x: nat | x < LAST
      ensures Taken(s, x) && !Describes(s, rescue, x)
    {
      GetAt(s, x);
      assert s[x].name == BootName(x);
    }
    NumberOfName(LAST);
    GetIn(s, BootName(LAST));
    if Owner(s, normal).Some? {
      var i := OwnerAt(s, normal);
    }
  }

  lemma {:induction false} OwnerAt(vars: Vars, desc: Units) returns (i: nat)
    requires Owner(vars, desc).Some?
    ensures i < |vars| && NumberOf(vars[i].name) == Owner(vars, desc) && DescriptionOf(vars[i].value) == Some(desc)
  {
    if NumberOf(vars[0].name).Some? && DescriptionOf(vars[0].value) == Some(desc) {
      i := 0;
    } else {
      i := OwnerAt(vars[1..], desc);
      i := i + 1;
    }
  }

  /** One number has one name, so one variable and one description. */
  lemma OwnersShare(vars: Vars, x: Units, y: Units, n: nat)
    requires Canonical(vars) && Unique(vars) && Owner(vars, x) == Some(n) && Owner(vars, y) == Some(n)
    ensures x == y
  {
    var i := OwnerAt(vars, x);
    var j := OwnerAt(vars, y);
    assert CanonicalName(vars[i].name) && CanonicalName(vars[j].name);
  }

  /** Registering both: the normal entry is first and the rescue entry last in the order, all others between them in their
      old order; both entries can be read back, and every other variable is as before. */
  lemma PairRegistered(s: Vars, a: Vars, b: Vars, c: Vars, d: Vars, p: Pair, other: string)
    requires Both(s, a, b, c, d, p) && p.n <= LAST && p.r <= LAST && p.n != p.r
    ensures OrderOf(d) == [p.n] + Without(Without(OrderOf(s), p.n), p.r) + [p.r]
    ensures Get(d, ORDER) == Some(Encode(OrderOf(d)))
    ensures Get(d, BootName(p.n)) == Some(NormalOption(p)) && Get(d, BootName(p.r)) == Some(RescueOption(p))
    ensures other != BootName(p.n) && other != BootName(p.r) && other != ORDER ==> Get(d, other) == Get(s, other)
  {
    NamesDiffer(p.n, p.r);
    NamesDiffer(p.r, p.n);
    var o1 := Reorder(OrderOf(a), p.n, true);
    var o2 := Reorder(OrderOf(c), p.r, false);
    forall x
      ensures Get(a, x) == if x == BootName(p.n) then Some(NormalOption(p)) else Get(s, x)
      ensures Get(b, x) == if x == ORDER then Some(Encode(o1)) else Get(a, x)
      ensures Get(c, x) == if x == BootName(p.r) then Some(RescueOption(p)) else Get(b, x)
      ensures Get(d, x) == if x == ORDER then Some(Encode(o2)) else Get(c, x)
    {
      SetGets(s, a, BootName(p.n), NormalOption(p), x);
      SetGets(a, b, ORDER, Encode(o1), x);
      SetGets(b, c, BootName(p.r), RescueOption(p), x);
      SetGets(c, d, ORDER, Encode(o2), x);
    }
    OrderReadsBack(o1);
    OrderReadsBack(o2);
    PairInOrder(OrderOf(s), p.n, p.r);
  }

  /** The entries keep their owners through the second registration. */
  lemma AfterPair(s: Vars, a: Vars, b: Vars, c: Vars, d: Vars, p: Pair)
    requires Both(s, a, b, c, d, p) && Canonical(s) && PairOk(p) && p.n != p.r
    ensures p.n <= LAST && p.r <= LAST && Owner(d, p.normal) == Some(p.n) && Owner(d, p.rescue) == Some(p.r)
  {
    AfterNormal(s, a, b, c, d, p);
    Described(p);
    OrderName();
    NamesDiffer(p.r, p.n);
    var bytes := Encode(Reorder(OrderOf(c), p.r, false));
    SetCanonical(b, c, BootName(p.r), RescueOption(p));
    OwnerKept(b, c, BootName(p.r), RescueOption(p), p.normal, p.n);
    OwnerTaken(b, c, RescueOption(p), p.rescue, p.r);
    OwnerKept(c, d, ORDER, bytes, p.normal, p.n);
    NamesDiffer(p.n, p.r);
    OwnerKept(c, d, ORDER, bytes, p.rescue, p.r);
  }

  /** Registering one entry that is already there, in its place, changes nothing. */
  lemma Settled(was: Vars, mid: Vars, now: Vars, dp: Bytes, desc: Units, data: Option<Units>, num: nat, n: nat)
    requires Registered(was, mid, now, Some(dp), desc, data, Ordered(num)) && Owner(was, desc) == Some(n) && n <= LAST
    requires Get(was, BootName(n)) == Some(LoadOption(dp, desc, data)) && Get(was, ORDER) == Some(Encode(OrderOf(was)))
    requires Reorder(OrderOf(was), n, data.None?) == OrderOf(was)
    ensures num == n && now == was
  {
    ReplacedSame(was, BootName(n), LoadOption(dp, desc, data));
    ReplacedSame(was, ORDER, Encode(OrderOf(was)));
  }

  /** Doing the pair again, with the same loader path, changes no variable. */
  lemma PairAgain(s: Vars, a: Vars, b: Vars, c: Vars, d: Vars, p: Pair, a': Vars, b': Vars, c': Vars, d': Vars, n': nat, r': nat)
    requires Both(s, a, b, c, d, p) && Canonical(s) && PairOk(p) && p.n != p.r
    requires Both(d, a', b', c', d', p.(n := n', r := r'))
    ensures n' == p.n && r' == p.r && d' == d
  {
    AfterPair(s, a, b, c, d, p);
    PairRegistered(s, a, b, c, d, p, ORDER);
    var m := Without(Without(OrderOf(s), p.n), p.r);
    StillWithout(Without(OrderOf(s), p.n), p.r, p.n);
    PairStays(m, p.n, p.r);
    Settled(d, a', b', p.dp, p.normal, None, n', p.n);
    Settled(d, c', d', p.dp, p.rescue, Some(p.signal), r', p.r);
  }

  lemma {:induction false} StillWithout(o: Units, num: Word, x: Word)
    requires x !in o
    ensures x !in Without(o, num)
  {
    if o != [] {
      StillWithout(o[1..], num, x);
    }
  }

  /** When both get the same number, the rescue entry overwrites the normal one. */
  lemma RescueOverwrites(s: Vars, a: Vars, b: Vars, c: Vars, d: Vars, p: Pair)
    requires Both(s, a, b, c, d, p) && Canonical(s) && PairOk(p) && p.n == p.r
    ensures p.n <= LAST && Get(d, BootName(p.n)) == Some(RescueOption(p)) && OrderOf(d) != [] && OrderOf(d)[|OrderOf(d)| - 1] == p.n
  {
    AfterNormal(s, a, b, c, d, p);
    NamesDiffer(p.n, p.n);
    var o := Reorder(OrderOf(c), p.r, false);
    SetGets(b, c, BootName(p.r), RescueOption(p), BootName(p.r));
    SetGets(c, d, ORDER, Encode(o), BootName(p.r));
    SetGets(c, d, ORDER, Encode(o), ORDER);
    OrderReadsBack(o);
  }
}
