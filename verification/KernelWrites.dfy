/**
 The durable writes of the boot shim (boot-shim/src/actualiza.rs) to the EFI system partition. Each can be
 spared, or be hit by an error or a power cut, and what a write leaves when it is hit is part of the
 schedule: the file as before, the file as after, or torn.

 A torn kernel or slot holds arbitrary bytes. META (512 bytes, one sector) is written atomically or becomes
 unreadable, and so is the mailbox, which then reads as idle.
 */
module KernelWrites {
  import opened Base

  const SLOT_SIZE: nat := 64 * 1024 * 1024
  const PAD_CHUNK: nat := 64 * 1024

  datatype Phase = Idle | Staged | BackupReady | Applying | Probando

  datatype Meta = Meta(phase: Phase, version: string, size: nat, hash: string, backupSize: nat, backupHash: string)

  datatype MetaFile = Missing | Garbled | Record(meta: Meta)

  datatype Mail =
    | MailIdle
    | MailKernel(size: nat, hash: string, version: string)
    | MailProbando(version: string)
    | MailRevertir
    | MailOk(version: string)
    | MailRevertido(version: string)

  /** What is durable on the partition. */
  datatype Files = Files(kernel: Option<Bytes>, slot: Option<Bytes>, meta: MetaFile, mail: Mail)

  /** What a write that is hit leaves behind. */
  datatype Left = Before | After | Torn(bytes: Option<Bytes>)

  datatype Fate = Spared | Hit(cut: bool, left: Left)

  /** `Refused` is an error found before anything was written. */
  datatype Outcome = Done | Refused | IoError | Cut

  /** The partition and the fates of the writes to come; once there are none left, writes are spared. */
  datatype World = World(files: Files, fates: seq<Fate>)

  type Step = (World, Outcome)

  // ---------------------------------------------------------------- one write

  function Next(w: World): Fate {
    if w.fates == [] then Spared else w.fates[0]
  }

  /** The world with other files and one fate used up. */
  function Past(w: World, files: Files): World {
    World(files, if w.fates == [] then [] else w.fates[1..])
  }

  function OutcomeOf(f: Fate): Outcome {
    if f.Spared? then Done else if f.cut then Cut else IoError
  }

  function Leaves<T>(f: Fate, before: T, after: T, torn: Option<Bytes> -> T): T {
    match f
    case Spared => after
    case Hit(_, Before) => before
    case Hit(_, After) => after
    case Hit(_, Torn(b)) => torn(b)
  }

  function LeavesFile(f: Fate, before: Option<Bytes>, after: Bytes): Option<Bytes> {
    Leaves(f, before, Some(after), b => b)
  }

  /** The bytes of a file after `data` is written at its start. */
  function Over(was: Option<Bytes>, data: Bytes): (b: Bytes)
    ensures |b| >= |data| && b[..|data|] == data
  {
    var w := if was.Some? then was.value else [];
    data + if |w| > |data| then w[|data|..] else []
  }

  /** escribir_fichero_exacto on the kernel: over the old bytes from the start, then the size, if it differs. */
  function PutKernel(w: World, data: Bytes): Step {
    var over := Over(w.files.kernel, data);
    var f := Next(w);
    var w1 := Past(w, w.files.(kernel := LeavesFile(f, w.files.kernel, over)));
    if !f.Spared? || |over| == |data| then (w1, OutcomeOf(f))
    else
      var g := Next(w1);
      (Past(w1, w.files.(kernel := LeavesFile(g, Some(over), data))), OutcomeOf(g))
  }

  function PutMeta(w: World, m: Meta): Step {
    var f := Next(w);
    (Past(w, w.files.(meta := Leaves(f, w.files.meta, Record(m), b => Garbled))), OutcomeOf(f))
  }

  function PutMail(w: World, mail: Mail): Step {
    var f := Next(w);
    (Past(w, w.files.(mail := Leaves(f, w.files.mail, mail, b => MailIdle))), OutcomeOf(f))
  }

  /** The zeros after `off`, in chunks up to `size`. */
  function Pad(w: World, now: Bytes, off: nat, size: nat): Step
    requires size <= |now|
    decreases size - off
  {
    if off >= size then (w, Done)
    else
      var n := Min(size - off, PAD_CHUNK);
      var next := now[..off] + Zeros(n) + now[off + n..];
      var f := Next(w);
      var w1 := Past(w, w.files.(slot := LeavesFile(f, Some(now), next)));
      if f.Spared? then Pad(w1, next, off + n, size) else (w1, OutcomeOf(f))
  }

  /** escribir_en_hueco: the slot is made large enough, then `data`, then zeros; it never gets smaller. */
  function PutSlot(w: World, data: Bytes, size: nat): Step {
    if |data| > size then (w, Refused)
    else
      var was := if w.files.slot.Some? then w.files.slot.value else [];
      if |was| >= size then PutSlotData(w, was, data, size)
      else
        var grown := was + Zeros(size - |was|);
        var f := Next(w);
        var w1 := Past(w, w.files.(slot := LeavesFile(f, w.files.slot, grown)));
        if f.Spared? then PutSlotData(w1, grown, data, size) else (w1, OutcomeOf(f))
  }

  function PutSlotData(w: World, was: Bytes, data: Bytes, size: nat): Step
    requires |data| <= size <= |was|
  {
    var now := data + was[|data|..];
    var f := Next(w);
    var w1 := Past(w, w.files.(slot := LeavesFile(f, Some(was), now)));
    if f.Spared? then Pad(w1, now, |data|, size) else (w1, OutcomeOf(f))
  }

  // ---------------------------------------------------------------- what each write promises

  lemma KernelPut(w: World, data: Bytes, r: Step)
    requires r == PutKernel(w, data)
    ensures r.1 != Refused && r.0.files == w.files.(kernel := r.0.files.kernel)
    ensures r.1.Done? ==> r.0.files.kernel == Some(data)
    ensures w.fates == [] ==> r.1.Done? && r.0.fates == []
  {
    assert Over(w.files.kernel, data)[..|data|] == data;
    assert |Over(w.files.kernel, data)| == |data| ==> Over(w.files.kernel, data) == data;
  }

  lemma MetaPut(w: World, m: Meta, r: Step)
    requires r == PutMeta(w, m)
    ensures r.1 != Refused && r.0.files == w.files.(meta := r.0.files.meta)
    ensures r.1.Done? ==> r.0.files.meta == Record(m)
    ensures r.0.files.meta in {w.files.meta, Garbled, Record(m)}
    ensures w.fates == [] ==> r.1.Done? && r.0.fates == []
  {
  }

  lemma MailPut(w: World, mail: Mail, r: Step)
    requires r == PutMail(w, mail)
    ensures r.1 != Refused && r.0.files == w.files.(mail := r.0.files.mail)
    ensures r.1.Done? ==> r.0.files.mail == mail
    ensures r.0.files.mail in {w.files.mail, MailIdle, mail}
    ensures w.fates == [] ==> r.1.Done? && r.0.fates == []
  {
  }

  /** The slot holds `image` followed by zeros, in the part of it that is ever read. */
  predicate SlotHolds(slot: Option<Bytes>, image: Bytes) {
    && slot.Some? && |slot.value| >= SLOT_SIZE >= |image|
    && slot.value[..SLOT_SIZE] == image + Zeros(SLOT_SIZE - |image|)
  }

  lemma {:induction false} Padded(w: World, now: Bytes, off: nat, size: nat, data: Bytes, r: Step)
    requires |data| <= off <= size <= |now| && now[..off] == data + Zeros(off - |data|) && r == Pad(w, now, off, size)
    requires w.files.slot == Some(now)
    ensures r.1 != Refused && r.0.files == w.files.(slot := r.0.files.slot)
    ensures r.1.Done? ==> r.0.files.slot.Some? && |r.0.files.slot.value| == |now|
                          && r.0.files.slot.value[..size] == data + Zeros(size - |data|)
                          && r.0.files.slot.value[size..] == now[size..]
    ensures w.fates == [] ==> r.1.Done? && r.0.fates == []
    decreases size - off
  {
    if off < size {
      var n := Min(size - off, PAD_CHUNK);
      var next := now[..off] + Zeros(n) + now[off + n..];
      PadStep(now, off, n, size, data, next);
      var f := Next(w);
      var w1 := Past(w, w.files.(slot := LeavesFile(f, Some(now), next)));
      if f.Spared? {
        Padded(w1, next, off + n, size, data, r);
      }
    }
  }

  lemma PadStep(now: Bytes, off: nat, n: nat, size: nat, data: Bytes, next: Bytes)
    requires |data| <= off && off + n <= size <= |now| && now[..off] == data + Zeros(off - |data|)
    requires next == now[..off] + Zeros(n) + now[off + n..]
    ensures |next| == |now| && next[..off + n] == data + Zeros(off + n - |data|) && next[size..] == now[size..]
  {
    assert next[..off + n] == now[..off] + Zeros(n);
  }

  lemma SlotPut(w: World, data: Bytes, size: nat, r: Step)
    requires r == PutSlot(w, data, size)
    ensures r.0.files == w.files.(slot := r.0.files.slot)
    ensures r.1.Refused? <==> |data| > size
    ensures r.1.Refused? ==> r.0 == w
    ensures r.1.Done? ==> r.0.files.slot.Some? && |r.0.files.slot.value| >= size
                          && r.0.files.slot.value[..size] == data + Zeros(size - |data|)
    ensures r.1.Done? && w.files.slot.Some? && |w.files.slot.value| > size ==>
              |r.0.files.slot.value| == |w.files.slot.value| && r.0.files.slot.value[size..] == w.files.slot.value[size..]
    ensures w.fates == [] && |data| <= size ==> r.1.Done? && r.0.fates == []
  {
    if |data| <= size {
      var was := if w.files.slot.Some? then w.files.slot.value else [];
      if |was| >= size {
        SlotDataPut(w, was, data, size, r);
      } else {
        var grown := was + Zeros(size - |was|);
        var f := Next(w);
        if f.Spared? {
          SlotDataPut(Past(w, w.files.(slot := Some(grown))), grown, data, size, r);
        }
      }
    }
  }

  lemma SlotDataPut(w: World, was: Bytes, data: Bytes, size: nat, r: Step)
    requires |data| <= size <= |was| && r == PutSlotData(w, was, data, size)
    ensures r.1 != Refused && r.0.files == w.files.(slot := r.0.files.slot)
    ensures r.1.Done? ==> r.0.files.slot.Some? && |r.0.files.slot.value| == |was|
                          && r.0.files.slot.value[..size] == data + Zeros(size - |data|)
                          && r.0.files.slot.value[size..] == was[size..]
    ensures w.fates == [] ==> r.1.Done? && r.0.fates == []
  {
    var now := data + was[|data|..];
    assert now[..|data|] == data + Zeros(0) && now[size..] == was[size..];
    var w1 := Past(w, w.files.(slot := Some(now)));
    if Next(w).Spared? {
      Padded(w1, now, |data|, size, data, r);
    }
  }

  // ---------------------------------------------------------------- the partition

  class Partition {
    var files: Files
    var fates: seq<Fate>

    constructor (files: Files, fates: seq<Fate>)
      ensures this.files == files && this.fates == fates
    {
      this.files, this.fates := files, fates;
    }

    function Now(): World
      reads this
    {
      World(files, fates)
    }

    method TakeFate() returns (f: Fate)
      modifies this`fates
      ensures f == Next(old(Now())) && Now() == Past(old(Now()), old(files))
    {
      if fates == [] {
        return Spared;
      }
      f := fates[0];
      fates := fates[1..];
    }

    method WriteKernel(data: Bytes) returns (out: Outcome)
      modifies this
      ensures (Now(), out) == PutKernel(old(Now()), data)
    {
      var over := Over(files.kernel, data);
      var f := TakeFate();
      files := files.(kernel := LeavesFile(f, files.kernel, over));
      if !f.Spared? || |over| == |data| {
        return OutcomeOf(f);
      }
      f := TakeFate();
      files := files.(kernel := LeavesFile(f, Some(over), data));
      out := OutcomeOf(f);
    }

    method WriteMeta(m: Meta) returns (out: Outcome)
      modifies this
      ensures (Now(), out) == PutMeta(old(Now()), m)
    {
      var f := TakeFate();
      files := files.(meta := Leaves(f, files.meta, Record(m), b => Garbled));
      out := OutcomeOf(f);
    }

    method WriteMail(mail: Mail) returns (out: Outcome)
      modifies this
      ensures (Now(), out) == PutMail(old(Now()), mail)
    {
      var f := TakeFate();
      files := files.(mail := Leaves(f, files.mail, mail, b => MailIdle));
      out := OutcomeOf(f);
    }

    method WriteSlot(data: Bytes, size: nat) returns (out: Outcome)
      modifies this
      ensures (Now(), out) == PutSlot(old(Now()), data, size)
    {
      if |data| > size {
        return Refused;
      }
      var was := if files.slot.Some? then files.slot.value else [];
      if |was| < size {
        var grown := was + Zeros(size - |was|);
        var f := TakeFate();
        files := files.(slot := LeavesFile(f, files.slot, grown));
        if !f.Spared? {
          return OutcomeOf(f);
        }
        was := grown;
      }
      out := WriteSlotData(was, data, size);
    }

    method WriteSlotData(was: Bytes, data: Bytes, size: nat) returns (out: Outcome)
      requires |data| <= size <= |was|
      modifies this
      ensures (Now(), out) == PutSlotData(old(Now()), was, data, size)
    {
      var now := data + was[|data|..];
      var f := TakeFate();
      files := files.(slot := LeavesFile(f, Some(was), now));
      if !f.Spared? {
        return OutcomeOf(f);
      }
      var off := |data|;
      ghost var goal := Pad(Now(), now, off, size);
      while off < size
        invariant off <= size <= |now| && Pad(Now(), now, off, size) == goal
      {
        var n := Min(size - off, PAD_CHUNK);
        var next := now[..off] + Zeros(n) + now[off + n..];
        f := TakeFate();
        files := files.(slot := LeavesFile(f, Some(now), next));
        if !f.Spared? {
          return OutcomeOf(f);
        }
        now, off := next, off + n;
      }
      out := Done;
    }
  }
}
