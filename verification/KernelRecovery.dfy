/**
 An update of boot-shim/src/actualiza.rs that was cut while the kernel was being replaced: when any number of boots, each
 cut or failing anywhere, followed by one that is not, always ends with the old kernel.
 */
module KernelRecovery {
  import opened Base
  import opened KernelWrites
  import opened KernelUpdate
  import opened KernelSafety

  /** What the slot holds of an image, up to its size. */
  function InSlot(image: Bytes): Bytes
    requires |image| <= SLOT_SIZE
  {
    image + Zeros(SLOT_SIZE - |image|)
  }

  /** A restore without a recorded size leaves the image as it is: it ends in another byte than zero, or has only zeros and
      nothing is restored. */
  predicate SurvivesTrim(image: Bytes) {
    image != [] && (image[|image| - 1] != 0 || AllZero(image))
  }

  /** A request in the mailbox that the backup in the slot would satisfy. */
  predicate AsksForBackup(sha: Sha, mail: Mail, image: Bytes)
    requires |image| <= SLOT_SIZE
  {
    mail.MailKernel? && VerifyStaged(sha, InSlot(image), mail.size, mail.hash)
  }

  /** The request that is left in the mailbox does no harm: it does not fit the backup, or asks for exactly the backup, and
      that survives a restore without a recorded size. */
  predicate Harmless(sha: Sha, mail: Mail, image: Bytes)
    requires |image| <= SLOT_SIZE
  {
    AsksForBackup(sha, mail, image) ==> mail.size == |image| && SurvivesTrim(image)
  }

  /** No other image of that size has the same hash. */
  ghost predicate OnlyImage(sha: Sha, image: Bytes) {
    forall x :: |x| == |image| && sha(x) == sha(image) ==> x == image
  }

  // ---------------------------------------------------------------- a request for the backup itself

  /** META names the image, and the slot holds it. */
  predicate Named(sha: Sha, s: Files, image: Bytes) {
    && s.meta.Record? && Names(sha, s.meta.meta, image) && s.meta.meta.phase in {BackupReady, Applying, Probando}
    && SlotHolds(s.slot, image)
  }

  /** The image is replaced by itself over and over: it is there, or the next boots will restore it. */
  predicate Cycling(sha: Sha, s: Files, image: Bytes) {
    && image != [] && |image| <= SLOT_SIZE
    && (s.meta.Record? ==> s.meta.meta == IDLE_META || Named(sha, s, image))
    && (s.mail.MailKernel? ==> s.mail.size == |image| && Decoded(s.mail.hash) == Some(sha(image)))
    && !s.mail.MailRevertir? && !s.mail.MailOk?
    && (s.mail.MailProbando? ==> SlotHolds(s.slot, image))
    && (|| s.kernel == Some(image)
        || (Named(sha, s, image) && (NeedsRecovery(s.meta.meta) || s.mail.MailProbando?))
        || (s.mail.MailProbando? && RestoreTarget(sha, IDLE_META, s.slot) == Some(image)))
  }

  lemma CycleStep(sha: Sha, w: World, image: Bytes, r: Step)
    requires ShaOk(sha) && OnlyImage(sha, image) && SurvivesTrim(image) && Cycling(sha, w.files, image) && r == Boot(sha, w)
    ensures Cycling(sha, r.0.files, image)
    ensures w.fates == [] ==> r.0.files.kernel == Some(image)
  {
    if Named(sha, w.files, image) {
      TargetOfBackup(sha, w.files.meta.meta, w.files.slot, image);
      NamedStep(sha, w, image, r);
    } else {
      assert r == Serve(sha, w);
      if w.files.mail.MailProbando? {
        LegacyStep(sha, w, image, r);
      } else if w.files.mail.MailKernel? {
        AgainStep(sha, w, image, r);
      }
    }
  }

  /** META names the image: it is restored, or the trial is made known, or its answer is awaited. */
  lemma NamedStep(sha: Sha, w: World, image: Bytes, r: Step)
    requires ShaOk(sha) && Cycling(sha, w.files, image) && Named(sha, w.files, image) && r == Boot(sha, w)
    requires HasBackup(w.files.meta.meta) && RestoreTarget(sha, w.files.meta.meta, w.files.slot) == Some(image)
    ensures Cycling(sha, r.0.files, image)
    ensures w.fates == [] ==> r.0.files.kernel == Some(image)
  {
    var m := w.files.meta.meta;
    if NeedsRecovery(m) {
      Restored(sha, w, m, image, r);
    } else if w.files.mail.MailKernel? || w.files.mail.MailIdle? {
      MailPut(w, MailProbando(m.version), r);
    } else if w.files.mail.MailProbando? {
      Reverted(sha, w, image, m, r);
    }
  }

  lemma Reverted(sha: Sha, w: World, image: Bytes, m: Meta, r: Step)
    requires w.files.mail.MailProbando? && r == Revert(sha, w, w.files.mail.version) && m == MetaOf(w.files.meta)
    requires RestoreTarget(sha, m, w.files.slot) == Some(image)
    ensures r.0.files == w.files.(kernel := r.0.files.kernel, meta := r.0.files.meta, mail := r.0.files.mail)
    ensures r.0.files.meta == w.files.meta || (HasBackup(m) && r.0.files.kernel == Some(image))
    ensures r.0.files.meta in {w.files.meta, Garbled, Record(IDLE_META)}
    ensures r.0.files.mail == w.files.mail
            || ((r.0.files.mail.MailIdle? || r.0.files.mail.MailRevertido?) && r.0.files.kernel == Some(image)
                && (HasBackup(m) ==> r.0.files.meta != w.files.meta || r.0.files.meta.Record?))
    ensures w.fates == [] ==> r.0.files.kernel == Some(image)
  {
    var a := Restore(sha, w, m);
    Restored(sha, w, m, image, a);
    if a.1.Done? {
      var ver := if w.files.mail.version == "" then m.version else w.files.mail.version;
      MailPut(a.0, MailRevertido(if ver == "" then "?" else ver), r);
    }
  }

  /** A trial is reverted with META reset or unreadable. */
  lemma LegacyStep(sha: Sha, w: World, image: Bytes, r: Step)
    requires SurvivesTrim(image) && Cycling(sha, w.files, image) && !Named(sha, w.files, image)
    requires w.files.mail.MailProbando? && r == Revert(sha, w, w.files.mail.version)
    ensures Cycling(sha, r.0.files, image)
    ensures w.fates == [] ==> r.0.files.kernel == Some(image)
  {
    LegacyExact(sha, image, w.files.slot);
    assert MetaOf(w.files.meta) == IDLE_META;
    if !AllZero(image) {
      Reverted(sha, w, image, IDLE_META, r);
    }
  }

  /** The backup is staged as the next kernel. */
  lemma AgainStep(sha: Sha, w: World, image: Bytes, r: Step)
    requires OnlyImage(sha, image) && Cycling(sha, w.files, image) && !Named(sha, w.files, image)
    requires w.files.mail.MailKernel? && r == Apply(sha, w, w.files.mail.size, w.files.mail.hash, w.files.mail.version)
    ensures Cycling(sha, r.0.files, image)
    ensures w.fates == [] ==> r.0.files.kernel == Some(image)
  {
    if r.0 != w {
      var staged := ReadUpTo(w.files.slot.value, SLOT_SIZE);
      var nuevo := staged[..|image|];
      assert nuevo == image;
      assert ReadUpTo(image, SLOT_SIZE) == image;
      VerifiedNeverLost(sha, w, image, image, |image|, w.files.mail.hash, w.files.mail.version, r);
    }
  }

  lemma {:induction false} CycleAlways(sha: Sha, s: Files, runs: seq<seq<Fate>>, image: Bytes)
    requires ShaOk(sha) && OnlyImage(sha, image) && SurvivesTrim(image) && Cycling(sha, s, image)
    requires runs != [] && runs[|runs| - 1] == []
    ensures Boots(sha, s, runs).kernel == Some(image)
    decreases |runs|
  {
    var r := Boot(sha, World(s, runs[0]));
    CycleStep(sha, World(s, runs[0]), image, r);
    if |runs| > 1 {
      CycleAlways(sha, r.0.files, runs[1..], image);
    }
  }

  // ---------------------------------------------------------------- exactly when

  /** From a restore point, the old kernel comes back if the request that is left does no harm. */
  lemma HarmlessRecovers(sha: Sha, s: Files, runs: seq<seq<Fate>>, image: Bytes)
    requires ShaOk(sha) && |image| <= SLOT_SIZE && RestorePoint(sha, s, image) && !RevertPending(s.mail)
    requires AsksForBackup(sha, s.mail, image) ==> OnlyImage(sha, image)
    requires Harmless(sha, s.mail, image)
    ensures Boots(sha, s, runs + [[]]).kernel == Some(image)
  {
    assert ReadUpTo(s.slot.value, SLOT_SIZE) == InSlot(image);
    if AsksForBackup(sha, s.mail, image) {
      assert InSlot(image)[..|image|] == image;
      CycleAlways(sha, s, runs + [[]], image);
    } else {
      RecoveryAlways(sha, s, runs + [[]], image);
    }
  }

  lemma BootsOn(sha: Sha, s: Files, run: seq<Fate>, runs: seq<seq<Fate>>)
    ensures Boots(sha, s, [run] + runs) == Boots(sha, Boot(sha, World(s, run)).0.files, runs)
  {
    assert ([run] + runs)[1..] == runs;
  }

  /** From a restore point, two boots without a cut: the old kernel is back, and the request is served. */
  lemma ServedAgain(sha: Sha, s: Files, image: Bytes, t: Files, u: Files)
    requires ShaOk(sha) && |image| <= SLOT_SIZE && RestorePoint(sha, s, image) && AsksForBackup(sha, s.mail, image)
    requires t == Boot(sha, World(s, [])).0.files && u == Boot(sha, World(t, [])).0.files
    ensures u.kernel == Some(InSlot(image)[..s.mail.size])
    ensures s.mail.size == |image| ==> RevertAsked(sha, u, image)
  {
    TargetOfBackup(sha, s.meta.meta, s.slot, image);
    RestoredUncut(sha, s, image, t);
    assert ReadUpTo(t.slot.value, SLOT_SIZE) == InSlot(image);
    assert ReadUpTo(image, SLOT_SIZE) == image;
    var nuevo, r := InSlot(image)[..t.mail.size], Boot(sha, World(t, []));
    assert r == ApplyVerified(sha, World(t, []), nuevo, image, t.mail.size, t.mail.hash, t.mail.version);
    VerifiedNeverLost(sha, World(t, []), nuevo, image, t.mail.size, t.mail.hash, t.mail.version, r);
  }

  lemma RestoredUncut(sha: Sha, s: Files, image: Bytes, t: Files)
    requires s.meta.Record? && NeedsRecovery(s.meta.meta) && t == Boot(sha, World(s, [])).0.files
    requires RestoreTarget(sha, s.meta.meta, s.slot) == Some(image)
    ensures t == s.(kernel := Some(image), meta := Record(IDLE_META))
  {
    var w := World(s, []);
    var a := PutKernel(w, image);
    KernelPut(w, image, a);
    MetaPut(a.0, IDLE_META, PutMeta(a.0, IDLE_META));
  }

  /** Otherwise there are boots after which it is not there: the request is served; and if it asked for the backup, its
      trial is reverted twice. */
  lemma HarmLoses(sha: Sha, s: Files, image: Bytes) returns (runs: seq<seq<Fate>>)
    requires ShaOk(sha) && |image| <= SLOT_SIZE && RestorePoint(sha, s, image) && !Harmless(sha, s.mail, image)
    ensures Boots(sha, s, runs + [[]]).kernel != Some(image)
  {
    var t := Boot(sha, World(s, [])).0.files;
    var u := Boot(sha, World(t, [])).0.files;
    ServedAgain(sha, s, image, t, u);
    if s.mail.size != |image| {
      runs := [[]];
      BootsOn(sha, s, [], [[]]);
      BootsOn(sha, t, [], []);
    } else {
      var cut := CutBeforeAnswer(u, image);
      var v := Boot(sha, World(u, cut)).0.files;
      SecondRevert(sha, u, image, v);
      runs := [[], [], cut];
      assert runs + [[]] == [[]] + ([[]] + ([cut] + [[]]));
      BootsOn(sha, s, [], [[]] + ([cut] + [[]]));
      BootsOn(sha, t, [], [cut] + [[]]);
      BootsOn(sha, u, cut, [[]]);
      BootsOn(sha, v, [], []);
    }
  }

  /** An update cut after it began to write the kernel, then any number of boots, each cut or failing anywhere, then one that
      is not: the old kernel is back, whatever the boots, exactly when the request still in the mailbox does no harm. If
      the request does not fit the backup, the restore point or the old kernel is there all the while. */
  lemma CutUpdateRecovers(sha: Sha, s: Files, fates: seq<Fate>, viejo: Bytes, t: Files)
    requires ShaOk(sha) && s.mail.MailKernel? && s.kernel == Some(viejo) && 0 < |viejo| <= SLOT_SIZE
    requires t == Apply(sha, World(s, fates), s.mail.size, s.mail.hash, s.mail.version).0.files && RestorePoint(sha, t, viejo)
    requires AsksForBackup(sha, s.mail, viejo) ==> OnlyImage(sha, viejo)
    ensures (forall runs :: Boots(sha, t, runs + [[]]).kernel == Some(viejo)) <==> Harmless(sha, s.mail, viejo)
    ensures !AsksForBackup(sha, s.mail, viejo) ==>
              forall runs :: RestorePoint(sha, Boots(sha, t, runs), viejo) || Boots(sha, t, runs).kernel == Some(viejo)
  {
    ApplyNeverLost(sha, World(s, fates), s.mail.size, s.mail.hash, s.mail.version, viejo,
                   Apply(sha, World(s, fates), s.mail.size, s.mail.hash, s.mail.version));
    assert t.mail == s.mail;
    if Harmless(sha, t.mail, viejo) {
      forall runs
        ensures Boots(sha, t, runs + [[]]).kernel == Some(viejo)
      {
        HarmlessRecovers(sha, t, runs, viejo);
      }
    } else {
      var runs := HarmLoses(sha, t, viejo);
    }
    if !AsksForBackup(sha, t.mail, viejo) {
      assert ReadUpTo(t.slot.value, SLOT_SIZE) == InSlot(viejo);
      forall runs
        ensures RestorePoint(sha, Boots(sha, t, runs), viejo) || Boots(sha, t, runs).kernel == Some(viejo)
      {
        RecoveryAlways(sha, t, runs, viejo);
      }
    }
  }
}
