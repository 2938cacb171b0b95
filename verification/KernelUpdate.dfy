/**
 The boot shim's kernel update (boot-shim/src/actualiza.rs) over the decisions of
 crates/soso-update-core (kernel_meta.rs, kernel_apply.rs): one boot as a sequence of durable writes, as a
 function of the partition and of what becomes of each write. Only the hash is not part of this model.
 */
module KernelUpdate {
  import opened Base
  import opened KernelWrites

  /** The hexadecimal SHA-256 of some bytes: 64 small digits. */
  type Sha = Bytes -> string

  // ---------------------------------------------------------------- META and the slot

  predicate HexDigit(c: char) {
    '0' <= c <= '9' || 'a' <= c <= 'f' || 'A' <= c <= 'F'
  }

  function LowerDigit(c: char): char {
    if 'A' <= c <= 'F' then c - 'A' + 'a' else c
  }

  predicate IsHash(h: string) {
    |h| == 64 && forall i :: 0 <= i < |h| ==> HexDigit(h[i]) && LowerDigit(h[i]) == h[i]
  }

  /** A hash as it is compared: 64 hexadecimal digits, capital or small. */
  function Decoded(h: string): Option<string> {
    if |h| == 64 && forall i :: 0 <= i < |h| ==> HexDigit(h[i])
    then Some(seq(|h|, (i: nat) requires i < |h| => LowerDigit(h[i])))
    else None
  }

  const IDLE_META: Meta := Meta(Idle, "", 0, "", 0, "")

  predicate HasBackup(m: Meta) {
    m.backupSize > 0 && |m.backupHash| == 64
  }

  predicate NeedsRecovery(m: Meta) {
    (m.phase.Applying? || m.phase.BackupReady?) && HasBackup(m)
  }

  datatype Decision = RecoverBackup | CompleteProbandoMailbox(version: string) | ContinueMailbox

  function AfterInterrupt(m: Meta, mail: Mail): Decision {
    if NeedsRecovery(m) then RecoverBackup
    else if m.phase.Probando? && (mail.MailKernel? || mail.MailIdle?) then CompleteProbandoMailbox(m.version)
    else ContinueMailbox
  }

  predicate VerifyStaged(sha: Sha, staged: Bytes, size: nat, hash: string) {
    size != 0 && size <= |staged| && Decoded(hash) == Some(sha(staged[..size]))
  }

  /** The bytes to restore: the slot's prefix of the recorded size, if its hash is the recorded one. */
  function VerifyBackup(sha: Sha, m: Meta, slot: Bytes): Option<Bytes> {
    if m.backupSize == 0 || |slot| < m.backupSize || Decoded(m.backupHash).None? then None
    else if sha(slot[..m.backupSize]) != m.backupHash then None
    else Some(slot[..m.backupSize])
  }

  /** Reading at most `max` bytes of a file. */
  function ReadUpTo(data: Bytes, max: nat): Bytes {
    if |data| > max then data[..max] else data
  }

  /** The slot without its trailing zeros; nothing when it is all zeros. */
  function LegacyImage(slot: Bytes): (r: Option<Bytes>) {
    if slot == [] then None
    else if slot[|slot| - 1] != 0 then Some(slot)
    else LegacyImage(slot[..|slot| - 1])
  }

  function MetaOf(f: MetaFile): Meta {
    if f.Record? then f.meta else IDLE_META
  }

  /** What a restore with this META writes over the kernel, if anything. */
  function RestoreTarget(sha: Sha, m: Meta, slot: Option<Bytes>): Option<Bytes> {
    if slot.None? then None
    else if HasBackup(m) then VerifyBackup(sha, m, ReadUpTo(slot.value, SLOT_SIZE))
    else LegacyImage(ReadUpTo(slot.value, SLOT_SIZE))
  }

  // ---------------------------------------------------------------- one boot

  /** META of an update to a kernel of `size` bytes, with the backup of the old one. */
  function StagedMeta(size: nat, hash: string, version: string, phase: Phase, sha: Sha, viejo: Bytes): Meta {
    Meta(phase, version, size, hash, |viejo|, sha(viejo))
  }

  function Apply(sha: Sha, w: World, size: nat, hash: string, version: string): Step {
    if size == 0 || size > SLOT_SIZE || w.files.slot.None? then (w, Refused)
    else
      var staged := ReadUpTo(w.files.slot.value, SLOT_SIZE);
      if !VerifyStaged(sha, staged, size, hash) || w.files.kernel.None? then (w, Refused)
      else ApplyVerified(sha, w, staged[..size], ReadUpTo(w.files.kernel.value, SLOT_SIZE), size, hash, version)
  }

  /** The new kernel is in memory: the old one goes to the slot, then META, then the kernel, META, the mailbox. */
  function ApplyVerified(sha: Sha, w: World, nuevo: Bytes, viejo: Bytes, size: nat, hash: string, version: string): Step {
    var a := PutSlot(w, viejo, SLOT_SIZE);
    if !a.1.Done? then a
    else
      var b := PutMeta(a.0, StagedMeta(size, hash, version, BackupReady, sha, viejo));
      if !b.1.Done? then b
      else
        var c := PutMeta(b.0, StagedMeta(size, hash, version, Applying, sha, viejo));
        if !c.1.Done? then c
        else
          var d := PutKernel(c.0, nuevo);
          if !d.1.Done? then d
          else
            var e := PutMeta(d.0, StagedMeta(size, hash, version, Probando, sha, viejo));
            if !e.1.Done? then e else PutMail(e.0, MailProbando(version))
  }

  /** Restores the backup META names, and resets META; that it may fail is ignored. Without a backup in META, the slot up
      to its last non-zero byte. */
  function Restore(sha: Sha, w: World, meta: Meta): Step {
    var target := RestoreTarget(sha, meta, w.files.slot);
    if target.None? then (w, Refused)
    else
      var a := PutKernel(w, target.value);
      if !a.1.Done? || !HasBackup(meta) then a
      else
        var b := PutMeta(a.0, IDLE_META);
        (b.0, if b.1.Cut? then Cut else Done)
  }

  function Revert(sha: Sha, w: World, version: string): Step {
    var meta := MetaOf(w.files.meta);
    var a := Restore(sha, w, meta);
    if !a.1.Done? then a
    else
      var ver := if version == "" then meta.version else version;
      PutMail(a.0, MailRevertido(if ver == "" then "?" else ver))
  }

  function Confirm(w: World): Step {
    var a := PutMail(w, MailIdle);
    if a.1.Cut? then a
    else
      var b := PutMeta(a.0, IDLE_META);
      (b.0, if b.1.Cut? then Cut else Done)
  }

  function Serve(sha: Sha, w: World): Step {
    match w.files.mail
    case MailProbando(version) => Revert(sha, w, version)
    case MailRevertir => Revert(sha, w, "")
    case MailKernel(size, hash, version) => Apply(sha, w, size, hash, version)
    case MailOk(_) => Confirm(w)
    case MailIdle => (w, Done)
    case MailRevertido(_) => (w, Done)
  }

  function Boot(sha: Sha, w: World): Step {
    if !w.files.meta.Record? then Serve(sha, w)
    else
      match AfterInterrupt(w.files.meta.meta, w.files.mail)
      case RecoverBackup => Restore(sha, w, w.files.meta.meta)
      case CompleteProbandoMailbox(version) => PutMail(w, MailProbando(version))
      case ContinueMailbox => Serve(sha, w)
  }

  // ---------------------------------------------------------------- the shim

  class Shim {
    const disk: Partition
    const sha: Sha

    constructor (disk: Partition, sha: Sha)
      ensures this.disk == disk && this.sha == sha
    {
      this.disk, this.sha := disk, sha;
    }

    method AplicarKernel(size: nat, hash: string, version: string) returns (out: Outcome)
      modifies disk
      ensures (disk.Now(), out) == Apply(sha, old(disk.Now()), size, hash, version)
    {
      if size == 0 || size > SLOT_SIZE || disk.files.slot.None? {
        return Refused;
      }
      var staged := ReadUpTo(disk.files.slot.value, SLOT_SIZE);
      if !VerifyStaged(sha, staged, size, hash) || disk.files.kernel.None? {
        return Refused;
      }
      var nuevo := staged[..size];
      var viejo := ReadUpTo(disk.files.kernel.value, SLOT_SIZE);
      var meta := Meta(Staged, version, size, hash, |viejo|, sha(viejo));
      out := disk.WriteSlot(viejo, SLOT_SIZE);
      if !out.Done? {
        return;
      }
      meta := meta.(phase := BackupReady);
      out := disk.WriteMeta(meta);
      if !out.Done? {
        return;
      }
      meta := meta.(phase := Applying);
      out := disk.WriteMeta(meta);
      if !out.Done? {
        return;
      }
      out := disk.WriteKernel(nuevo);
      if !out.Done? {
        return;
      }
      meta := meta.(phase := Probando);
      out := disk.WriteMeta(meta);
      if !out.Done? {
        return;
      }
      out := disk.WriteMail(MailProbando(version));
    }

    method RevertirDesdeMeta(meta: Meta) returns (out: Outcome)
      modifies disk
      ensures (disk.Now(), out) == Restore(sha, old(disk.Now()), meta)
    {
      if !HasBackup(meta) {
        out := RevertirKernelLegacy(meta);
        return;
      }
      if disk.files.slot.None? {
        return Refused;
      }
      var backup := VerifyBackup(sha, meta, ReadUpTo(disk.files.slot.value, SLOT_SIZE));
      if backup.None? {
        return Refused;
      }
      out := disk.WriteKernel(backup.value);
      if !out.Done? {
        return;
      }
      var ignored := disk.WriteMeta(IDLE_META);
      out := if ignored.Cut? then Cut else Done;
    }

    method RevertirKernelLegacy(ghost meta: Meta) returns (out: Outcome)
      requires !HasBackup(meta)
      modifies disk
      ensures (disk.Now(), out) == Restore(sha, old(disk.Now()), meta)
    {
      if disk.files.slot.None? {
        return Refused;
      }
      var backup := ReadUpTo(disk.files.slot.value, SLOT_SIZE);
      var len: nat := |backup|;
      assert backup[..len] == backup;
      while len > 0 && backup[len - 1] == 0
        invariant len <= |backup|
        invariant LegacyImage(backup) == LegacyImage(backup[..len])
      {
        assert backup[..len][..len - 1] == backup[..len - 1];
        len := len - 1;
      }
      if len == 0 {
        return Refused;
      }
      out := disk.WriteKernel(backup[..len]);
    }

    method RevertirKernel(version: string) returns (out: Outcome)
      modifies disk
      ensures (disk.Now(), out) == Revert(sha, old(disk.Now()), version)
    {
      var meta := MetaOf(disk.files.meta);
      out := RevertirDesdeMeta(meta);
      if !out.Done? {
        return;
      }
      var ver := if version == "" then meta.version else version;
      out := disk.WriteMail(MailRevertido(if ver == "" then "?" else ver));
    }

    /** `None` when META asks for no recovery. */
    method RecuperarInterrumpido() returns (out: Option<Outcome>)
      modifies disk
      ensures out.None? <==> !(old(disk.files).meta.Record? && NeedsRecovery(old(disk.files).meta.meta))
      ensures out.None? ==> disk.Now() == old(disk.Now())
      ensures out.Some? ==> (disk.Now(), out.value) == Restore(sha, old(disk.Now()), old(disk.files).meta.meta)
    {
      if !disk.files.meta.Record? || !NeedsRecovery(disk.files.meta.meta) {
        return None;
      }
      var r := RevertirDesdeMeta(disk.files.meta.meta);
      out := Some(r);
    }

    method Atender() returns (out: Outcome)
      modifies disk
      ensures (disk.Now(), out) == Boot(sha, old(disk.Now()))
    {
      if disk.files.meta.Record? {
        match AfterInterrupt(disk.files.meta.meta, disk.files.mail)
        case RecoverBackup =>
          var r := RecuperarInterrumpido();
          if r.Some? {
            return r.value;
          }
        case CompleteProbandoMailbox(version) =>
          out := disk.WriteMail(MailProbando(version));
          return;
        case ContinueMailbox =>
      }
      match disk.files.mail
      case MailProbando(version) =>
        out := RevertirKernel(version);
      case MailRevertir =>
        out := RevertirKernel("");
      case MailKernel(size, hash, version) =>
        out := AplicarKernel(size, hash, version);
      case MailOk(_) =>
        out := disk.WriteMail(MailIdle);
        if out.Cut? {
          return;
        }
        var ignored := disk.WriteMeta(IDLE_META);
        out := if ignored.Cut? then Cut else Done;
      case MailIdle =>
        out := Done;
      case MailRevertido(_) =>
        out := Done;
    }
  }
}
