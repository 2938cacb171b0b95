/**
 What the kernel update of boot-shim/src/actualiza.rs keeps through power cuts, for every schedule of
 errors and cuts and any number of boots.
 */
module KernelSafety {
  import opened Base
  import opened KernelWrites
  import opened KernelUpdate

  ghost predicate ShaOk(sha: Sha) {
    forall x :: IsHash(sha(x))
  }

  lemma HashDecodes(h: string)
    requires IsHash(h)
    ensures Decoded(h) == Some(h)
  {
    assert Decoded(h).value == h;
  }

  predicate Names(sha: Sha, m: Meta, image: Bytes) {
    m.backupSize == |image| && m.backupHash == sha(image)
  }

  /** The slot holds the whole image and META durably says that it is being replaced, with its size and hash. */
  predicate RestorePoint(sha: Sha, s: Files, image: Bytes) {
    image != [] && SlotHolds(s.slot, image) && s.meta.Record? && s.meta.meta.phase.Applying? && Names(sha, s.meta.meta, image)
  }

  predicate RevertPending(mail: Mail) {
    mail.MailProbando? || mail.MailRevertir?
  }

  // ---------------------------------------------------------------- an update, cut anywhere

  /** The old kernel, whole; or the new one, whole; or a restore point for the old one. */
  predicate NeverLost(sha: Sha, before: Files, after: Files, viejo: Bytes, size: nat, hash: string) {
    || after.kernel == Some(viejo)
    || (before.slot.Some? && VerifyStaged(sha, ReadUpTo(before.slot.value, SLOT_SIZE), size, hash)
        && after.kernel == Some(ReadUpTo(before.slot.value, SLOT_SIZE)[..size]))
    || RestorePoint(sha, after, viejo)
  }

  /** Wherever an update of a kernel of at most 64 MiB is cut or fails, the old kernel is not lost; META is only ever what
      it was, unreadable, or names the old kernel. */
  lemma ApplyNeverLost(sha: Sha, w: World, size: nat, hash: string, version: string, viejo: Bytes, r: Step)
    requires w.files.kernel == Some(viejo) && 0 < |viejo| <= SLOT_SIZE && r == Apply(sha, w, size, hash, version)
    ensures NeverLost(sha, w.files, r.0.files, viejo, size, hash)
    ensures r.1.Refused? ==> r.0 == w
    ensures r.0.files.kernel != Some(viejo) ==> SlotHolds(r.0.files.slot, viejo)
    ensures r.0.files.meta != w.files.meta && r.0.files.meta.Record? ==>
              Names(sha, r.0.files.meta.meta, viejo) && SlotHolds(r.0.files.slot, viejo)
    ensures r.0.files.mail in {w.files.mail, MailIdle, MailProbando(version)}
    ensures r.0.files.mail != w.files.mail ==>
              r.0.files.meta == Record(StagedMeta(size, hash, version, Probando, sha, viejo))
    ensures r.1.Done? ==>
              && NewKernel(sha, w.files, r.0.files, size, hash) && SlotHolds(r.0.files.slot, viejo)
              && r.0.files.mail == MailProbando(version)
              && r.0.files.meta == Record(StagedMeta(size, hash, version, Probando, sha, viejo))
    ensures w.fates == [] ==> r.1 in {Done, Refused}
  {
    if !r.1.Refused? || r.0 != w {
      var staged := ReadUpTo(w.files.slot.value, SLOT_SIZE);
      assert ReadUpTo(viejo, SLOT_SIZE) == viejo;
      VerifiedNeverLost(sha, w, staged[..size], viejo, size, hash, version, r);
    }
  }

  /** The kernel is the one that was asked for and verified. */
  predicate NewKernel(sha: Sha, before: Files, after: Files, size: nat, hash: string) {
    && before.slot.Some? && VerifyStaged(sha, ReadUpTo(before.slot.value, SLOT_SIZE), size, hash)
    && after.kernel == Some(ReadUpTo(before.slot.value, SLOT_SIZE)[..size])
  }

  lemma VerifiedNeverLost(sha: Sha, w: World, nuevo: Bytes, viejo: Bytes, size: nat, hash: string, version: string, r: Step)
    requires w.files.kernel == Some(viejo) && 0 < |viejo| <= SLOT_SIZE
    requires r == ApplyVerified(sha, w, nuevo, viejo, size, hash, version)
    ensures !r.1.Refused?
    ensures r.0.files.kernel == Some(viejo) || r.0.files.kernel == Some(nuevo) || RestorePoint(sha, r.0.files, viejo)
    ensures r.0.files.kernel != Some(viejo) ==> SlotHolds(r.0.files.slot, viejo)
    ensures r.0.files.meta != w.files.meta && r.0.files.meta.Record? ==>
              Names(sha, r.0.files.meta.meta, viejo) && SlotHolds(r.0.files.slot, viejo)
    ensures r.0.files.meta != w.files.meta && r.0.files.meta.Record? ==>
              r.0.files.meta.meta.phase in {BackupReady, Applying, Probando}
    ensures r.0.files.mail in {w.files.mail, MailIdle, MailProbando(version)}
    ensures r.0.files.mail != w.files.mail ==>
              r.0.files.kernel == Some(nuevo) && r.0.files.meta == Record(StagedMeta(size, hash, version, Probando, sha, viejo))
              && SlotHolds(r.0.files.slot, viejo)
    ensures r.1.Done? ==>
              && r.0.files.kernel == Some(nuevo) && SlotHolds(r.0.files.slot, viejo) && r.0.files.mail == MailProbando(version)
              && r.0.files.meta == Record(StagedMeta(size, hash, version, Probando, sha, viejo))
    ensures w.fates == [] ==> r.1.Done?
  {
    var a := PutSlot(w, viejo, SLOT_SIZE);
    SlotPut(w, viejo, SLOT_SIZE, a);
    if a.1.Done? {
      var b := PutMeta(a.0, StagedMeta(size, hash, version, BackupReady, sha, viejo));
      MetaPut(a.0, StagedMeta(size, hash, version, BackupReady, sha, viejo), b);
      if b.1.Done? {
        var c := PutMeta(b.0, StagedMeta(size, hash, version, Applying, sha, viejo));
        MetaPut(b.0, StagedMeta(size, hash, version, Applying, sha, viejo), c);
        if c.1.Done? {
          var d := PutKernel(c.0, nuevo);
          KernelPut(c.0, nuevo, d);
          if d.1.Done? {
            var e := PutMeta(d.0, StagedMeta(size, hash, version, Probando, sha, viejo));
            MetaPut(d.0, StagedMeta(size, hash, version, Probando, sha, viejo), e);
            if e.1.Done? {
              MailPut(e.0, MailProbando(version), r);
            }
          }
        }
      }
    }
  }

  // ---------------------------------------------------------------- any number of boots after a cut

  /** The files after boots with these schedules, one after the other. */
  function Boots(sha: Sha, s: Files, runs: seq<seq<Fate>>): Files
    decreases |runs|
  {
    if runs == [] then s else Boots(sha, Boot(sha, World(s, runs[0])).0.files, runs[1..])
  }

  /** The mailbox asks for nothing that the slot could satisfy: no revert, and no kernel with the digest of what the slot
      holds. */
  predicate AsksNothing(sha: Sha, s: Files) {
    && !RevertPending(s.mail)
    && (s.mail.MailKernel? && s.slot.Some? ==> !VerifyStaged(sha, ReadUpTo(s.slot.value, SLOT_SIZE), s.mail.size, s.mail.hash))
  }

  /** On the way back to the old kernel, or there. */
  predicate Recovering(sha: Sha, s: Files, viejo: Bytes) {
    && viejo != [] && SlotHolds(s.slot, viejo) && AsksNothing(sha, s)
    && (RestorePoint(sha, s, viejo) || (s.kernel == Some(viejo) && (s.meta.Record? ==> s.meta.meta == IDLE_META)))
  }

  lemma TargetOfBackup(sha: Sha, m: Meta, slot: Option<Bytes>, image: Bytes)
    requires ShaOk(sha) && image != [] && SlotHolds(slot, image) && Names(sha, m, image)
    ensures HasBackup(m) && RestoreTarget(sha, m, slot) == Some(image)
  {
    var view := ReadUpTo(slot.value, SLOT_SIZE);
    assert view == slot.value[..SLOT_SIZE];
    assert view[..|image|] == image;
    HashDecodes(sha(image));
  }

  /** What a restore leaves, for any schedule. */
  lemma Restored(sha: Sha, w: World, m: Meta, image: Bytes, r: Step)
    requires RestoreTarget(sha, m, w.files.slot) == Some(image) && r == Restore(sha, w, m)
    ensures r.0.files == w.files.(kernel := r.0.files.kernel, meta := r.0.files.meta) && r.1 != Refused
    ensures r.0.files.meta == w.files.meta || (HasBackup(m) && r.0.files.kernel == Some(image))
    ensures r.0.files.meta in {w.files.meta, Garbled, Record(IDLE_META)}
    ensures r.1.Done? ==> r.0.files.kernel == Some(image)
    ensures w.fates == [] ==> r.1.Done? && r.0.fates == []
  {
    var a := PutKernel(w, image);
    KernelPut(w, image, a);
    if a.1.Done? && HasBackup(m) {
      MetaPut(a.0, IDLE_META, PutMeta(a.0, IDLE_META));
    }
  }

  /** One boot on the way back, cut anywhere or not. */
  lemma RecoveryStep(sha: Sha, w: World, viejo: Bytes, r: Step)
    requires ShaOk(sha) && Recovering(sha, w.files, viejo) && r == Boot(sha, w)
    ensures Recovering(sha, r.0.files, viejo)
    ensures r.1 in {Done, Refused} ==> r.0.files.kernel == Some(viejo)
    ensures w.fates == [] ==> r.1 in {Done, Refused}
  {
    if RestorePoint(sha, w.files, viejo) {
      TargetOfBackup(sha, w.files.meta.meta, w.files.slot, viejo);
      Restored(sha, w, w.files.meta.meta, viejo, r);
    } else if w.files.mail.MailOk? {
      var a := PutMail(w, MailIdle);
      MailPut(w, MailIdle, a);
      MetaPut(a.0, IDLE_META, PutMeta(a.0, IDLE_META));
    } else if w.files.meta.Record? && w.files.mail.MailIdle? {
      assert r == Serve(sha, w);
    }
  }

  /** From a restore point, any number of cut boots ends at a restore point or with the old kernel byte for byte, and with
      the old kernel if the last boot was not interrupted. */
  lemma {:induction false} RecoveryAlways(sha: Sha, s: Files, runs: seq<seq<Fate>>, viejo: Bytes)
    requires ShaOk(sha) && Recovering(sha, s, viejo)
    ensures Recovering(sha, Boots(sha, s, runs), viejo)
    ensures runs != [] && runs[|runs| - 1] == [] ==> Boots(sha, s, runs).kernel == Some(viejo)
    decreases |runs|
  {
    if runs != [] {
      var r := Boot(sha, World(s, runs[0]));
      RecoveryStep(sha, World(s, runs[0]), viejo, r);
      RecoveryAlways(sha, r.0.files, runs[1..], viejo);
    }
  }

  // ---------------------------------------------------------------- the revert that loses zeros

  lemma {:induction false} LegacyTrims(image: Bytes, n: nat)
    requires image != [] && image[|image| - 1] != 0
    ensures LegacyImage(image + Zeros(n)) == Some(image)
  {
    if n == 0 {
      assert image + Zeros(0) == image;
    } else {
      assert (image + Zeros(n))[..|image| + n - 1] == image + Zeros(n - 1);
      LegacyTrims(image, n - 1);
    }
  }

  predicate AllZero(b: Bytes) {
    forall i :: 0 <= i < |b| ==> b[i] == 0
  }

  lemma {:induction false} LegacyEndsNonZero(slot: Bytes)
    ensures LegacyImage(slot).Some? ==> var x := LegacyImage(slot).value; x != [] && x[|x| - 1] != 0
    ensures LegacyImage(slot).None? <==> AllZero(slot)
  {
    if slot != [] && slot[|slot| - 1] == 0 {
      LegacyEndsNonZero(slot[..|slot| - 1]);
      assert forall i :: 0 <= i < |slot| - 1 ==> slot[i] == slot[..|slot| - 1][i];
    }
  }

  /** Without a recorded size the image restored is the image held exactly when its last byte is not zero. */
  lemma LegacyExact(sha: Sha, image: Bytes, slot: Option<Bytes>)
    requires SlotHolds(slot, image) && image != []
    ensures RestoreTarget(sha, IDLE_META, slot) == Some(image) <==> image[|image| - 1] != 0
    ensures RestoreTarget(sha, IDLE_META, slot).None? <==> AllZero(image)
  {
    var view := ReadUpTo(slot.value, SLOT_SIZE);
    assert view == slot.value[..SLOT_SIZE] == image + Zeros(SLOT_SIZE - |image|);
    LegacyEndsNonZero(view);
    assert forall i :: 0 <= i < |image| ==> view[i] == image[i];
    if image[|image| - 1] != 0 {
      LegacyTrims(image, SLOT_SIZE - |image|);
    }
  }

  /** A revert is asked for, and META names the image the slot holds. */
  predicate RevertAsked(sha: Sha, s: Files, image: Bytes) {
    && image != [] && SlotHolds(s.slot, image) && RevertPending(s.mail)
    && s.meta.Record? && s.meta.meta.phase.Probando? && Names(sha, s.meta.meta, image)
  }

  /** A schedule that spares the kernel and cuts the power once META has been reset, before the mailbox is answered. */
  function CutBeforeAnswer(s: Files, image: Bytes): seq<Fate> {
    (if |Over(s.kernel, image)| == |image| then [Spared] else [Spared, Spared]) + [Hit(true, After)]
  }

  /** After that cut the image is in place; the next boot, though not interrupted, reverts again without a recorded size.
      It leaves the image exactly when the image does not end in a zero byte, or is all zeros and nothing is restored. */
  lemma SecondRevert(sha: Sha, s: Files, image: Bytes, t: Files)
    requires ShaOk(sha) && RevertAsked(sha, s, image)
    requires t == Boot(sha, World(s, CutBeforeAnswer(s, image))).0.files
    ensures t == s.(kernel := Some(image), meta := Record(IDLE_META))
    ensures Boot(sha, World(t, [])).0.files.kernel == Some(image) <==> image[|image| - 1] != 0 || AllZero(image)
  {
    var fates := CutBeforeAnswer(s, image);
    TargetOfBackup(sha, s.meta.meta, s.slot, image);
    RestoredThenCut(sha, s, s.meta.meta, image, fates);
    assert Boot(sha, World(s, fates)) == Serve(sha, World(s, fates));
    LegacyExact(sha, image, t.slot);
    var target := RestoreTarget(sha, IDLE_META, t.slot);
    var u := Restore(sha, World(t, []), IDLE_META);
    assert Boot(sha, World(t, [])) == Serve(sha, World(t, []));
    if target.Some? {
      Restored(sha, World(t, []), IDLE_META, target.value, u);
    }
  }

  lemma RestoredThenCut(sha: Sha, s: Files, m: Meta, image: Bytes, fates: seq<Fate>)
    requires HasBackup(m) && RestoreTarget(sha, m, s.slot) == Some(image) && fates == CutBeforeAnswer(s, image)
    ensures Restore(sha, World(s, fates), m) == (World(s.(kernel := Some(image), meta := Record(IDLE_META)), []), Cut)
  {
    var over := Over(s.kernel, image);
    if |over| == |image| {
      assert over == over[..|image|] == image;
      assert fates[1..] == [Hit(true, After)] && fates[1..][1..] == [];
    } else {
      assert fates[1..][1..] == [Hit(true, After)] && fates[1..][1..][1..] == [];
    }
  }

  /** One such run: the kernel 01 00 comes back as 01. */
  lemma ZerosLost(sha: Sha, s: Files, t: Files)
    requires ShaOk(sha)
    requires s == Files(Some([2, 2]), Some([1, 0] + Zeros(SLOT_SIZE - 2)),
                        Record(Meta(Probando, "v", 2, sha([2, 2]), 2, sha([1, 0]))), MailRevertir)
    requires t == Boot(sha, World(s, [Spared, Hit(true, After)])).0.files
    ensures t.kernel == Some([1, 0]) && Boot(sha, World(t, [])).0.files.kernel == Some([1])
  {
    var image: Bytes := [1, 0];
    var b: Bytes := [1];
    assert s.slot.value[..SLOT_SIZE] == image + Zeros(SLOT_SIZE - 2);
    assert Over(s.kernel, image) == image;
    assert CutBeforeAnswer(s, image) == [Spared, Hit(true, After)];
    SecondRevert(sha, s, image, t);
    var view := ReadUpTo(t.slot.value, SLOT_SIZE);
    assert view == b + Zeros(SLOT_SIZE - 1);
    LegacyTrims(b, SLOT_SIZE - 1);
    var u := Restore(sha, World(t, []), IDLE_META);
    Restored(sha, World(t, []), IDLE_META, b, u);
    assert Boot(sha, World(t, [])) == Serve(sha, World(t, []));
  }

  // ---------------------------------------------------------------- a whole life

  type Digest = (nat, string)

  function DigestOf(sha: Sha, image: Bytes): Digest {
    (|image|, sha(image))
  }

  /** A whole kernel: one with a digest that was vouched for. */
  predicate Whole(sha: Sha, trusted: Digest -> bool, image: Option<Bytes>) {
    image.Some? && trusted(DigestOf(sha, image.value))
  }

  /** Kernels that are vouched for fit the slot. */
  ghost predicate TrustFits(sha: Sha, trusted: Digest -> bool) {
    forall x: Bytes :: trusted(DigestOf(sha, x)) ==> 0 < |x| <= SLOT_SIZE
  }

  predicate RecoveryPending(f: MetaFile) {
    f.Record? && NeedsRecovery(f.meta)
  }

  predicate BackupNamed(f: MetaFile) {
    f.Record? && HasBackup(f.meta)
  }

  predicate BackupTrusted(trusted: Digest -> bool, m: Meta) {
    trusted((m.backupSize, m.backupHash))
  }

  /** No update in progress, or one that has not touched the kernel: the slot may hold anything. */
  predicate Calm(sha: Sha, trusted: Digest -> bool, s: Files) {
    && Whole(sha, trusted, s.kernel) && !RevertPending(s.mail)
    && (s.meta.Record? ==> !s.meta.meta.phase.Probando?)
    && (RecoveryPending(s.meta) ==> BackupTrusted(trusted, s.meta.meta))
  }

  /** The kernel may be torn, but META asks for a recovery and the slot passes its hash. */
  predicate Recoverable(sha: Sha, trusted: Digest -> bool, s: Files) {
    && !RevertPending(s.mail) && RecoveryPending(s.meta) && BackupTrusted(trusted, s.meta.meta)
    && RestoreTarget(sha, s.meta.meta, s.slot).Some?
  }

  /** The slot holds a whole kernel that META, if it names a backup, names. The running kernel is whole or some pending
      request will restore it. */
  ghost predicate BackedUp(sha: Sha, trusted: Digest -> bool, s: Files) {
    && (Whole(sha, trusted, s.kernel) || RecoveryPending(s.meta) || RevertPending(s.mail))
    && exists image :: HeldWhole(sha, trusted, s, image)
  }

  predicate HeldWhole(sha: Sha, trusted: Digest -> bool, s: Files, image: Bytes) {
    && Whole(sha, trusted, Some(image)) && SlotHolds(s.slot, image)
    && (BackupNamed(s.meta) ==> Names(sha, s.meta.meta, image))
  }

  predicate RequestTrusted(trusted: Digest -> bool, mail: Mail) {
    mail.MailKernel? && Decoded(mail.hash).Some? ==> trusted((mail.size, Decoded(mail.hash).value))
  }

  ghost predicate Safe(sha: Sha, trusted: Digest -> bool, s: Files) {
    && RequestTrusted(trusted, s.mail)
    && (Calm(sha, trusted, s) || Recoverable(sha, trusted, s) || BackedUp(sha, trusted, s))
  }

  /** The state in which a boot goes wrong: a revert is pending, META names no backup, and the slot up to its last non-zero
      byte is not a whole kernel. */
  predicate Exposed(sha: Sha, trusted: Digest -> bool, s: Files) {
    RevertPending(s.mail) && !BackupNamed(s.meta) && !Whole(sha, trusted, RestoreTarget(sha, IDLE_META, s.slot))
  }

  /** What a restore would write is whole; if there is nothing to write, the kernel is. */
  lemma TargetIsWhole(sha: Sha, trusted: Digest -> bool, s: Files, m: Meta)
    requires ShaOk(sha) && TrustFits(sha, trusted) && Safe(sha, trusted, s) && !Exposed(sha, trusted, s)
    requires RecoveryPending(s.meta) || RevertPending(s.mail)
    requires m == MetaOf(s.meta)
    ensures var target := RestoreTarget(sha, m, s.slot);
            Whole(sha, trusted, if target.Some? then target else s.kernel)
  {
    if BackedUp(sha, trusted, s) && BackupNamed(s.meta) {
      var image :| HeldWhole(sha, trusted, s, image);
      TargetOfBackup(sha, m, s.slot, image);
    } else if !BackupNamed(s.meta) {
      assert RestoreTarget(sha, m, s.slot) == RestoreTarget(sha, IDLE_META, s.slot);
    }
  }

  /** A restore asked for by META or by the mailbox. */
  lemma RestoreSafe(sha: Sha, trusted: Digest -> bool, w: World, r: Step)
    requires ShaOk(sha) && TrustFits(sha, trusted) && Safe(sha, trusted, w.files) && !Exposed(sha, trusted, w.files)
    requires RecoveryPending(w.files.meta) || RevertPending(w.files.mail)
    requires r == Restore(sha, w, MetaOf(w.files.meta))
    ensures Safe(sha, trusted, r.0.files) && r.0.files.mail == w.files.mail
    ensures r.1 in {Done, Refused} ==> Whole(sha, trusted, r.0.files.kernel)
    ensures r.1.Done? && RevertPending(w.files.mail) ==> BackedUp(sha, trusted, r.0.files)
  {
    var m := MetaOf(w.files.meta);
    TargetIsWhole(sha, trusted, w.files, m);
    var target := RestoreTarget(sha, m, w.files.slot);
    if target.Some? {
      Restored(sha, w, m, target.value, r);
      if BackedUp(sha, trusted, w.files) {
        var image :| HeldWhole(sha, trusted, w.files, image);
        assert HeldWhole(sha, trusted, r.0.files, image);
      }
    }
  }

  lemma RevertSafe(sha: Sha, trusted: Digest -> bool, w: World, version: string, r: Step)
    requires ShaOk(sha) && TrustFits(sha, trusted) && Safe(sha, trusted, w.files) && !Exposed(sha, trusted, w.files)
    requires RevertPending(w.files.mail) && r == Revert(sha, w, version)
    ensures Safe(sha, trusted, r.0.files)
    ensures r.1 in {Done, Refused} ==> Whole(sha, trusted, r.0.files.kernel)
  {
    var a := Restore(sha, w, MetaOf(w.files.meta));
    RestoreSafe(sha, trusted, w, a);
    if a.1.Done? {
      var image :| HeldWhole(sha, trusted, a.0.files, image);
      assert HeldWhole(sha, trusted, r.0.files, image);
    }
  }

  lemma ApplySafe(sha: Sha, trusted: Digest -> bool, w: World, size: nat, hash: string, version: string, r: Step)
    requires ShaOk(sha) && TrustFits(sha, trusted) && Safe(sha, trusted, w.files)
    requires w.files.mail == MailKernel(size, hash, version) && !RecoveryPending(w.files.meta)
    requires w.files.meta.Record? ==> !w.files.meta.meta.phase.Probando?
    requires r == Apply(sha, w, size, hash, version)
    ensures Safe(sha, trusted, r.0.files)
    ensures r.1 in {Done, Refused} ==> Whole(sha, trusted, r.0.files.kernel)
  {
    var viejo := w.files.kernel.value;
    assert trusted(DigestOf(sha, viejo));
    ApplyNeverLost(sha, w, size, hash, version, viejo, r);
    if r.0 != w {
      var staged := ReadUpTo(w.files.slot.value, SLOT_SIZE);
      assert ReadUpTo(viejo, SLOT_SIZE) == viejo;
      VerifiedSafe(sha, trusted, w, staged[..size], viejo, size, hash, version, r);
    }
  }

  lemma VerifiedSafe(sha: Sha, trusted: Digest -> bool, w: World, nuevo: Bytes, viejo: Bytes, size: nat, hash: string,
                     version: string, r: Step)
    requires ShaOk(sha) && w.files.kernel == Some(viejo) && 0 < |viejo| <= SLOT_SIZE && trusted(DigestOf(sha, viejo))
    requires trusted(DigestOf(sha, nuevo)) && w.files.mail == MailKernel(size, hash, version) && RequestTrusted(trusted, w.files.mail)
    requires !RecoveryPending(w.files.meta) && (w.files.meta.Record? ==> !w.files.meta.meta.phase.Probando?)
    requires r == ApplyVerified(sha, w, nuevo, viejo, size, hash, version)
    ensures Safe(sha, trusted, r.0.files)
    ensures r.1.Done? ==> Whole(sha, trusted, r.0.files.kernel)
  {
    var a := PutSlot(w, viejo, SLOT_SIZE);
    SlotPut(w, viejo, SLOT_SIZE, a);
    if a.1.Done? {
      var b := PutMeta(a.0, StagedMeta(size, hash, version, BackupReady, sha, viejo));
      MetaPut(a.0, StagedMeta(size, hash, version, BackupReady, sha, viejo), b);
      if b.1.Done? {
        var c := PutMeta(b.0, StagedMeta(size, hash, version, Applying, sha, viejo));
        MetaPut(b.0, StagedMeta(size, hash, version, Applying, sha, viejo), c);
        if c.1.Done? {
          AfterApplying(sha, trusted, c.0, nuevo, viejo, size, hash, version, r);
        }
      }
    }
  }

  /** From the moment META says Applying. */
  lemma AfterApplying(sha: Sha, trusted: Digest -> bool, w: World, nuevo: Bytes, viejo: Bytes, size: nat, hash: string,
                      version: string, r: Step)
    requires ShaOk(sha) && viejo != [] && SlotHolds(w.files.slot, viejo)
    requires trusted(DigestOf(sha, viejo)) && trusted(DigestOf(sha, nuevo))
    requires w.files.mail == MailKernel(size, hash, version) && RequestTrusted(trusted, w.files.mail)
    requires w.files.meta == Record(StagedMeta(size, hash, version, Applying, sha, viejo))
    requires r == var d := PutKernel(w, nuevo);
                  if !d.1.Done? then d
                  else
                    var e := PutMeta(d.0, StagedMeta(size, hash, version, Probando, sha, viejo));
                    if !e.1.Done? then e else PutMail(e.0, MailProbando(version))
    ensures Safe(sha, trusted, r.0.files)
    ensures r.1.Done? ==> Whole(sha, trusted, r.0.files.kernel)
  {
    var m := StagedMeta(size, hash, version, Probando, sha, viejo);
    var d := PutKernel(w, nuevo);
    KernelPut(w, nuevo, d);
    TargetOfBackup(sha, w.files.meta.meta, w.files.slot, viejo);
    if d.1.Done? {
      var e := PutMeta(d.0, m);
      MetaPut(d.0, m, e);
      assert HeldWhole(sha, trusted, e.0.files, viejo);
      if e.1.Done? {
        MailPut(e.0, MailProbando(version), r);
        assert HeldWhole(sha, trusted, r.0.files, viejo);
      }
    }
  }

  lemma ConfirmSafe(sha: Sha, trusted: Digest -> bool, w: World, r: Step)
    requires Safe(sha, trusted, w.files) && w.files.mail.MailOk? && !RecoveryPending(w.files.meta) && r == Confirm(w)
    ensures Safe(sha, trusted, r.0.files)
    ensures Whole(sha, trusted, r.0.files.kernel)
  {
    var a := PutMail(w, MailIdle);
    MailPut(w, MailIdle, a);
    MetaPut(a.0, IDLE_META, PutMeta(a.0, IDLE_META));
    if BackedUp(sha, trusted, w.files) {
      var image :| HeldWhole(sha, trusted, w.files, image);
      assert HeldWhole(sha, trusted, r.0.files, image);
    }
  }

  /** One boot, cut or failing anywhere, from any safe state that is not exposed: the state stays safe, and a boot that ran
      to its end chainloads a whole kernel. */
  lemma BootSafe(sha: Sha, trusted: Digest -> bool, w: World, r: Step)
    requires ShaOk(sha) && TrustFits(sha, trusted) && Safe(sha, trusted, w.files) && !Exposed(sha, trusted, w.files)
    requires r == Boot(sha, w)
    ensures Safe(sha, trusted, r.0.files)
    ensures r.1 in {Done, Refused} ==> Whole(sha, trusted, r.0.files.kernel)
  {
    if RecoveryPending(w.files.meta) {
      RestoreSafe(sha, trusted, w, r);
    } else if w.files.meta.Record? && w.files.meta.meta.phase.Probando? && (w.files.mail.MailKernel? || w.files.mail.MailIdle?) {
      var image :| HeldWhole(sha, trusted, w.files, image);
      MailPut(w, MailProbando(w.files.meta.meta.version), r);
      assert HeldWhole(sha, trusted, r.0.files, image);
    } else {
      ServeSafe(sha, trusted, w, r);
    }
  }

  lemma ServeSafe(sha: Sha, trusted: Digest -> bool, w: World, r: Step)
    requires ShaOk(sha) && TrustFits(sha, trusted) && Safe(sha, trusted, w.files) && !Exposed(sha, trusted, w.files)
    requires !RecoveryPending(w.files.meta) && r == Serve(sha, w)
    requires w.files.meta.Record? && w.files.meta.meta.phase.Probando? ==> !w.files.mail.MailKernel?
    ensures Safe(sha, trusted, r.0.files)
    ensures r.1 in {Done, Refused} ==> Whole(sha, trusted, r.0.files.kernel)
  {
    match w.files.mail
    case MailProbando(version) => RevertSafe(sha, trusted, w, version, r);
    case MailRevertir => RevertSafe(sha, trusted, w, "", r);
    case MailKernel(size, hash, version) => ApplySafe(sha, trusted, w, size, hash, version, r);
    case MailOk(_) => ConfirmSafe(sha, trusted, w, r);
    case MailIdle =>
    case MailRevertido(_) =>
  }

  /** A boot that is not interrupted runs to its end. */
  lemma BootEnds(sha: Sha, s: Files)
    ensures Boot(sha, World(s, [])).1 in {Done, Refused}
  {
    var w := World(s, []);
    var m := MetaOf(s.meta);
    var target := RestoreTarget(sha, m, s.slot);
    if target.Some? {
      Restored(sha, w, m, target.value, Restore(sha, w, m));
    }
    if s.mail.MailKernel? && s.slot.Some? && s.kernel.Some? {
      var viejo := ReadUpTo(s.kernel.value, SLOT_SIZE);
      SlotPut(w, viejo, SLOT_SIZE, PutSlot(w, viejo, SLOT_SIZE));
    }
  }

  /** The assumptions can be met with any kernel that fits the slot, whatever its last byte. */
  lemma AssumptionsMet(kernel: Bytes)
    requires 0 < |kernel| <= SLOT_SIZE
    ensures exists sha, trusted ::
              ShaOk(sha) && TrustFits(sha, trusted) && Safe(sha, trusted, Files(Some(kernel), None, Missing, MailIdle))
  {
    var h: string := seq(64, i => 'a');
    var sha: Sha := x => h;
    var trusted := (d: Digest) => 0 < d.0 <= SLOT_SIZE;
    assert ShaOk(sha) && TrustFits(sha, trusted);
  }

  /** What the installed system, running a whole kernel, does between boots: confirm the trial kernel, ask for the way back
      while the slot still holds the backup META names, or stage a kernel while nothing is pending. */
  predicate SystemStep(sha: Sha, trusted: Digest -> bool, s: Files, t: Files) {
    && Whole(sha, trusted, s.kernel)
    && (|| (t == s.(mail := t.mail) && t.mail.MailOk?)
        || (t == s.(mail := MailRevertir) && BackupNamed(s.meta) && HeldNamed(sha, trusted, s, s.meta.meta.backupSize))
        || (&& Calm(sha, trusted, s) && t.kernel == s.kernel
            && (t.meta.Record? ==> t.meta.meta.phase in {Idle, Staged})
            && (t.mail == MailIdle || (t.mail.MailKernel? && RequestTrusted(trusted, t.mail)))))
  }

  /** The slot still holds, in its first `n` bytes, the backup that META names. */
  predicate HeldNamed(sha: Sha, trusted: Digest -> bool, s: Files, n: nat) {
    s.slot.Some? && n <= SLOT_SIZE <= |s.slot.value| && HeldWhole(sha, trusted, s, s.slot.value[..n])
  }

  lemma SystemStepSafe(sha: Sha, trusted: Digest -> bool, s: Files, t: Files)
    requires Safe(sha, trusted, s) && SystemStep(sha, trusted, s, t)
    ensures Safe(sha, trusted, t)
  {
    if t == s.(mail := t.mail) && t.mail.MailOk? {
      if BackedUp(sha, trusted, s) {
        var image :| HeldWhole(sha, trusted, s, image);
        assert HeldWhole(sha, trusted, t, image);
      }
    } else if t == s.(mail := MailRevertir) {
      assert HeldWhole(sha, trusted, t, s.slot.value[..s.meta.meta.backupSize]);
    }
  }

  /** A boot with its schedule, or a step of the installed system. */
  datatype Event = BootWith(fates: seq<Fate>) | System(files: Files)

  function Lived(sha: Sha, s: Files, events: seq<Event>): Files
    decreases |events|
  {
    if events == [] then s
    else
      match events[0]
      case BootWith(fates) => Lived(sha, Boot(sha, World(s, fates)).0.files, events[1..])
      case System(t) => Lived(sha, t, events[1..])
  }

  /** No boot of this life starts exposed, and the system does only what it is made to do. */
  predicate Lives(sha: Sha, trusted: Digest -> bool, s: Files, events: seq<Event>)
    decreases |events|
  {
    events != [] ==>
      match events[0]
      case BootWith(fates) =>
        !Exposed(sha, trusted, s) && Lives(sha, trusted, Boot(sha, World(s, fates)).0.files, events[1..])
      case System(t) => SystemStep(sha, trusted, s, t) && Lives(sha, trusted, t, events[1..])
  }

  /** Any number of boots, each cut or failing anywhere, with the installed system acting in between: the partition is
      always safe, and one more boot that is not interrupted and not exposed chainloads a whole kernel. */
  lemma {:induction false} LifeSafe(sha: Sha, trusted: Digest -> bool, s: Files, events: seq<Event>)
    requires ShaOk(sha) && TrustFits(sha, trusted) && Safe(sha, trusted, s) && Lives(sha, trusted, s, events)
    ensures var t := Lived(sha, s, events);
            && Safe(sha, trusted, t)
            && (!Exposed(sha, trusted, t) ==> Whole(sha, trusted, Boot(sha, World(t, [])).0.files.kernel))
    decreases |events|
  {
    if events == [] {
      if !Exposed(sha, trusted, s) {
        BootEnds(sha, s);
        BootSafe(sha, trusted, World(s, []), Boot(sha, World(s, [])));
      }
    } else {
      match events[0]
      case BootWith(fates) =>
        var r := Boot(sha, World(s, fates));
        BootSafe(sha, trusted, World(s, fates), r);
        LifeSafe(sha, trusted, r.0.files, events[1..]);
      case System(t) =>
        SystemStepSafe(sha, trusted, s, t);
        LifeSafe(sha, trusted, t, events[1..]);
    }
  }

  /** Exposure needs a vouched-for kernel that ends in a zero byte. */
  lemma NeverExposed(sha: Sha, trusted: Digest -> bool, s: Files)
    requires Safe(sha, trusted, s) && NoneEndsInZero(sha, trusted)
    ensures !Exposed(sha, trusted, s)
  {
    if RevertPending(s.mail) && !BackupNamed(s.meta) {
      var image :| HeldWhole(sha, trusted, s, image);
      LegacyExact(sha, image, s.slot);
    }
  }

  /** Every vouched-for kernel ends in another byte than zero. */
  ghost predicate NoneEndsInZero(sha: Sha, trusted: Digest -> bool) {
    forall x: Bytes :: trusted(DigestOf(sha, x)) ==> x != [] && x[|x| - 1] != 0
  }

  /** The system does only what it is made to do. */
  predicate Behaves(sha: Sha, trusted: Digest -> bool, s: Files, events: seq<Event>)
    decreases |events|
  {
    events != [] ==>
      match events[0]
      case BootWith(fates) => Behaves(sha, trusted, Boot(sha, World(s, fates)).0.files, events[1..])
      case System(t) => SystemStep(sha, trusted, s, t) && Behaves(sha, trusted, t, events[1..])
  }

  /** Then no boot starts exposed, so that after any life one more boot that is not interrupted chainloads a whole kernel. */
  lemma {:induction false} LifeWhole(sha: Sha, trusted: Digest -> bool, s: Files, events: seq<Event>)
    requires ShaOk(sha) && TrustFits(sha, trusted) && Safe(sha, trusted, s) && Behaves(sha, trusted, s, events)
    requires NoneEndsInZero(sha, trusted)
    ensures var t := Lived(sha, s, events);
            Safe(sha, trusted, t) && Whole(sha, trusted, Boot(sha, World(t, [])).0.files.kernel)
    decreases |events|
  {
    NeverExposed(sha, trusted, s);
    if events == [] {
      BootEnds(sha, s);
      BootSafe(sha, trusted, World(s, []), Boot(sha, World(s, [])));
    } else {
      match events[0]
      case BootWith(fates) =>
        var r := Boot(sha, World(s, fates));
        BootSafe(sha, trusted, World(s, fates), r);
        LifeWhole(sha, trusted, r.0.files, events[1..]);
      case System(t) =>
        SystemStepSafe(sha, trusted, s, t);
        LifeWhole(sha, trusted, t, events[1..]);
    }
  }
}
