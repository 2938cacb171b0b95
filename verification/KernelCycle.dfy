/**
 What an uncut boot of boot-shim/src/actualiza.rs leaves, and whole cycles of an update: staged, tried, and then confirmed
 or taken back.
 */
module KernelCycle {
  import opened Base
  import opened KernelWrites
  import opened KernelUpdate
  import opened KernelSafety

  /** The files after a boot without errors or cuts. */
  function Booted(sha: Sha, s: Files): Files {
    Boot(sha, World(s, [])).0.files
  }

  /** META asks for no recovery, and is not that of a trial that was never announced. */
  predicate MailDecides(s: Files) {
    s.meta.Record? ==>
      && !NeedsRecovery(s.meta.meta)
      && (s.meta.meta.phase.Probando? ==> !s.mail.MailKernel? && !s.mail.MailIdle?)
  }

  // ---------------------------------------------------------------- each kind of boot

  /** A kernel that was being replaced is restored, if the backup passes its hash. */
  lemma RecoveryBoot(sha: Sha, s: Files)
    requires s.meta.Record? && NeedsRecovery(s.meta.meta)
    ensures Booted(sha, s) ==
            match RestoreTarget(sha, s.meta.meta, s.slot)
            case None => s
            case Some(image) => s.(kernel := Some(image), meta := Record(IDLE_META))
  {
    var target := RestoreTarget(sha, s.meta.meta, s.slot);
    if target.Some? {
      UncutRestore(sha, s, s.meta.meta, target.value);
    }
  }

  lemma UncutRestore(sha: Sha, s: Files, m: Meta, image: Bytes)
    requires RestoreTarget(sha, m, s.slot) == Some(image)
    ensures var r := Restore(sha, World(s, []), m);
            r == (World(s.(kernel := Some(image), meta := if HasBackup(m) then Record(IDLE_META) else s.meta), []), Done)
  {
    var w := World(s, []);
    var a := PutKernel(w, image);
    KernelPut(w, image, a);
    if HasBackup(m) {
      MetaPut(a.0, IDLE_META, PutMeta(a.0, IDLE_META));
    }
  }

  /** A trial whose announcement was lost is announced again; no request is served. */
  lemma AnnouncingBoot(sha: Sha, s: Files)
    requires s.meta.Record? && s.meta.meta.phase.Probando? && (s.mail.MailKernel? || s.mail.MailIdle?)
    ensures Booted(sha, s) == s.(mail := MailProbando(s.meta.meta.version))
  {
    MailPut(World(s, []), MailProbando(s.meta.meta.version), Boot(sha, World(s, [])));
  }

  /** A confirmed trial: mailbox and META go idle, kernel and slot stay. */
  lemma ConfirmingBoot(sha: Sha, s: Files)
    requires MailDecides(s) && s.mail.MailOk?
    ensures Booted(sha, s) == s.(mail := MailIdle, meta := Record(IDLE_META))
  {
    var w := World(s, []);
    var a := PutMail(w, MailIdle);
    MailPut(w, MailIdle, a);
    MetaPut(a.0, IDLE_META, PutMeta(a.0, IDLE_META));
  }

  /** Nothing asked for, nothing done. */
  lemma IdleBoot(sha: Sha, s: Files)
    requires MailDecides(s) && (s.mail.MailIdle? || s.mail.MailRevertido?)
    ensures Booted(sha, s) == s
  {
  }

  /** The version that a revert reports: the one of the trial, else that of META. */
  function Reported(mail: Mail, meta: MetaFile): string {
    var asked := if mail.MailProbando? then mail.version else "";
    if asked != "" then asked
    else if MetaOf(meta).version != "" then MetaOf(meta).version
    else "?"
  }

  /** A trial that was not confirmed, or a revert that was asked for: the image is restored and the mailbox says so. */
  lemma RevertingBoot(sha: Sha, s: Files)
    requires MailDecides(s) && RevertPending(s.mail)
    ensures Booted(sha, s) ==
            match RestoreTarget(sha, MetaOf(s.meta), s.slot)
            case None => s
            case Some(image) =>
              Files(Some(image), s.slot, if HasBackup(MetaOf(s.meta)) then Record(IDLE_META) else s.meta,
                    MailRevertido(Reported(s.mail, s.meta)))
  {
    var target := RestoreTarget(sha, MetaOf(s.meta), s.slot);
    if target.Some? {
      UncutRestore(sha, s, MetaOf(s.meta), target.value);
      var a := Restore(sha, World(s, []), MetaOf(s.meta));
      MailPut(a.0, MailRevertido(Reported(s.mail, s.meta)), PutMail(a.0, MailRevertido(Reported(s.mail, s.meta))));
    }
  }

  /** The request can be served: the slot holds the image it names, and there is a kernel to back up. */
  predicate Servable(sha: Sha, s: Files) {
    && s.mail.MailKernel? && 0 < s.mail.size <= 64 * 1024 * 1024 && s.slot.Some? && s.kernel.Some?
    && VerifyStaged(sha, ReadUpTo(s.slot.value, 64 * 1024 * 1024), s.mail.size, s.mail.hash)
  }

  /** A request is served exactly if it can be: the new kernel is in place, the old one in the slot, the trial announced. */
  lemma UpdatingBoot(sha: Sha, s: Files, t: Files)
    requires MailDecides(s) && s.mail.MailKernel? && t == Booted(sha, s)
    requires s.kernel.Some? ==> 0 < |s.kernel.value| <= SLOT_SIZE
    ensures !Servable(sha, s) ==> t == s
    ensures Servable(sha, s) ==>
              var viejo := s.kernel.value;
              && t.kernel == Some(s.slot.value[..s.mail.size]) && SlotHolds(t.slot, viejo)
              && t.meta == Record(StagedMeta(s.mail.size, s.mail.hash, s.mail.version, Probando, sha, viejo))
              && t.mail == MailProbando(s.mail.version)
  {
    var w := World(s, []);
    if Servable(sha, s) {
      var viejo, staged := s.kernel.value, ReadUpTo(s.slot.value, SLOT_SIZE);
      assert ReadUpTo(viejo, SLOT_SIZE) == viejo && staged[..s.mail.size] == s.slot.value[..s.mail.size];
      VerifiedNeverLost(sha, w, staged[..s.mail.size], viejo, s.mail.size, s.mail.hash, s.mail.version, Boot(sha, w));
    }
  }

  // ---------------------------------------------------------------- what can be staged

  /** A request with an image's size and hash, in small or capital digits, is met by every slot that begins with the image. */
  lemma StagedImage(sha: Sha, slot: Bytes, image: Bytes, hash: string)
    requires ShaOk(sha) && image != [] && |image| <= |slot| && slot[..|image|] == image
    requires |hash| == |sha(image)| && forall i :: 0 <= i < |hash| ==> HexDigit(hash[i]) && LowerDigit(hash[i]) == sha(image)[i]
    ensures VerifyStaged(sha, slot, |image|, hash)
  {
    assert Decoded(hash).value == sha(image);
  }

  /** And by no slot that begins with an image of another hash. */
  lemma OtherImage(sha: Sha, slot: Bytes, size: nat, hash: string)
    requires VerifyStaged(sha, slot, size, hash)
    ensures 0 < size <= |slot| && |hash| == |sha(slot[..size])| == 64
    ensures forall i :: 0 <= i < 64 ==> LowerDigit(hash[i]) == sha(slot[..size])[i]
  {
  }

  // ---------------------------------------------------------------- whole cycles

  /** An update that is tried and confirmed: the new kernel stays, and everything is idle. */
  lemma UpdateConfirmed(sha: Sha, s: Files, t: Files, u: Files, version: string)
    requires MailDecides(s) && Servable(sha, s) && 0 < |s.kernel.value| <= SLOT_SIZE
    requires t == Booted(sha, s) && u == Booted(sha, t.(mail := MailOk(version)))
    ensures u.kernel == Some(s.slot.value[..s.mail.size]) && u.mail == MailIdle && u.meta == Record(IDLE_META)
    ensures SlotHolds(u.slot, s.kernel.value)
  {
    UpdatingBoot(sha, s, t);
    ConfirmingBoot(sha, t.(mail := MailOk(version)));
  }

  /** An update that is tried and never confirmed: the next boot brings the old kernel back, and says so. */
  lemma UpdateTakenBack(sha: Sha, s: Files, t: Files, u: Files)
    requires ShaOk(sha) && MailDecides(s) && Servable(sha, s) && 0 < |s.kernel.value| <= SLOT_SIZE
    requires t == Booted(sha, s) && u == Booted(sha, t)
    ensures u.kernel == s.kernel && u.meta == Record(IDLE_META)
    ensures u.mail == MailRevertido(if s.mail.version == "" then "?" else s.mail.version)
    ensures Booted(sha, u) == u
  {
    UpdatingBoot(sha, s, t);
    TargetOfBackup(sha, t.meta.meta, t.slot, s.kernel.value);
    RevertingBoot(sha, t);
    IdleBoot(sha, u);
  }

  /** After a confirmation the next request that the slot meets is served, not answered with the old trial. */
  lemma UpdatedAfterConfirmed(sha: Sha, s: Files, t: Files, slot: Bytes, size: nat, hash: string, version: string, u: Files, v: Files)
    requires MailDecides(s) && s.mail.MailOk? && s.kernel.Some? && 0 < |s.kernel.value| <= SLOT_SIZE
    requires t == Booted(sha, s) && u == t.(slot := Some(slot), mail := MailKernel(size, hash, version))
    requires Servable(sha, u) && v == Booted(sha, u)
    ensures v.kernel == Some(slot[..size]) && SlotHolds(v.slot, s.kernel.value) && v.mail == MailProbando(version)
  {
    ConfirmingBoot(sha, s);
    UpdatingBoot(sha, u, v);
  }
}
