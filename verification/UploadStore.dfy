/** The operations on one upload, with its lock held (upload_store.go, upload_publish.go).

    Every disk operation may fail, and a save may fail after its rename took effect.  Other
    programs change the destination directory where a method calls `Interfere`: before each
    look at the destination, and before the save that relies on what was seen or linked.  The
    theorems about runs let them change it between any two steps.  The ghost log collects
    the disk steps taken; `Valid` says that it is a legal run of the protocol, so the theorems
    of UploadProtocol and UploadRecovery hold at every crash point of every operation.
    With `reliable` nothing fails; with `undisturbed` no other program interferes. */
module UploadStore {
  import opened Basics
  import opened UploadParts
  import opened UploadProtocol
  import opened UploadRecovery

  datatype Error =
    | UploadConflict | UploadExpired | UploadCancelled | UploadIncomplete | UploadBusy
    | InvalidPart | PartConflict | InvalidDigest | SizeMismatch
    | DestinationExists | InsufficientStorage | IoError | ResetFailed

  /** `Replayed` marks an answer that changed nothing. */
  datatype Result = Done | Replayed | Failed(error: Error)

  /** The steps taken since the store was opened at `start`, and where the latest recovery
      began: at `origin`, `mark` steps in. */
  datatype History = History(start: Transfer, steps: seq<Step>, origin: Transfer, mark: nat)

  /** The steps are a legal run that leads to `t`. */
  ghost predicate Leads(c: Config, h: History, t: Transfer, undisturbed: bool) {
    && Safe(c, h.start)
    && Legal(c, h.start, h.steps)
    && Replay(c, h.start, h.steps) == t
    && (undisturbed ==> Undisturbed(h.steps))
  }

  /** Everything since recovery began was a step of recovery, and led to `t`. */
  ghost predicate Recovers(c: Config, h: History, t: Transfer) {
    && h.mark <= |h.steps|
    && Legal(c, h.origin, h.steps[h.mark..])
    && Replay(c, h.origin, h.steps[h.mark..]) == t
    && RecoveryRun(c, h.origin, h.steps[h.mark..])
  }

  function Noted(h: History, s: Step): History {
    h.(steps := h.steps + [s])
  }

  lemma OneStep(c: Config, t: Transfer, s: Step)
    requires Enabled(c, t, s)
    ensures Legal(c, t, [s]) && Replay(c, t, [s]) == Apply(c, t, s)
  {
    assert [s][1..] == [];
    assert Legal(c, Apply(c, t, s), []);
  }

  lemma StepLeads(c: Config, h: History, t: Transfer, s: Step, undisturbed: bool)
    requires Leads(c, h, t, undisturbed) && Enabled(c, t, s)
    requires undisturbed ==> !s.Outside?
    ensures Leads(c, Noted(h, s), Apply(c, t, s), undisturbed)
    ensures Safe(c, Apply(c, t, s))
  {
    OneStep(c, t, s);
    LegalAppend(c, h.start, h.steps, [s]);
    RunKeepsSafe(c, h.start, h.steps);
    StepKeepsSafe(c, t, s);
  }

  lemma StepExtends(c: Config, h: History, t: Transfer, s: Step, undisturbed: bool)
    requires Leads(c, h, t, undisturbed) && Enabled(c, t, s)
    requires undisturbed ==> !s.Outside?
    ensures Leads(c, Noted(h, s), Apply(c, t, s), undisturbed) && Safe(c, Apply(c, t, s))
    ensures Recovers(c, h, t) && RecoveryStep(c, t, s) ==> Recovers(c, Noted(h, s), Apply(c, t, s))
  {
    StepLeads(c, h, t, s, undisturbed);
    if Recovers(c, h, t) && RecoveryStep(c, t, s) {
      StepRecovers(c, h, t, s);
    }
  }

  lemma StepRecovers(c: Config, h: History, t: Transfer, s: Step)
    requires Recovers(c, h, t) && RecoveryStep(c, t, s)
    ensures Recovers(c, Noted(h, s), Apply(c, t, s))
  {
    OneStep(c, t, s);
    var taken := h.steps[h.mark..];
    LegalAppend(c, h.origin, taken, [s]);
    RecoveryRunAppend(c, h.origin, taken, s);
    assert Noted(h, s).steps[h.mark..] == taken + [s];
  }

  lemma RecoverySettles(c: Config, h: History, t: Transfer)
    requires Recovers(c, h, t) && Safe(c, h.origin)
    ensures Final(t) == Final(h.origin)
  {
    RecoveryIsCrashInsensitive(c, h.origin, h.steps[h.mark..]);
  }

  /*** Saves that the protocol allows ***/

  lemma CompletionAllowed(c: Config, t: Transfer, now: nat)
    requires Safe(c, t) && t.manifest.state == Finalizing && t.confirmed
    ensures SaveAllowed(c, t, CompletedManifest(c, t.manifest, DigestOf(Content(t)), now))
    ensures VerdictOn(t) == Adopt ==> RecoveryStep(c, t, Save(CompletedManifest(c, t.manifest, DigestOf(Content(t)), now)))
  {
  }

  lemma ReopeningAllowed(c: Config, t: Transfer, now: nat)
    requires Safe(c, t) && t.manifest.state == Finalizing && !t.confirmed && Stage(t) !in t.directory
    ensures SaveAllowed(c, t, ActiveManifest(c, t.manifest, now))
    ensures VerdictOn(t) == Resume ==> RecoveryStep(c, t, Save(ActiveManifest(c, t.manifest, now)))
  {
  }

  lemma FinalizingAllowed(c: Config, t: Transfer, now: nat)
    requires Safe(c, t) && t.manifest.state == Active && FullyRecorded(t.manifest)
    ensures SaveAllowed(c, t, FinalizingManifest(c, t.manifest, now))
  {
    StageNameIsStageName(t.manifest.id);
  }

  lemma CancellationAllowed(c: Config, t: Transfer, now: nat)
    requires Safe(c, t) && t.manifest.state == Active
    ensures SaveAllowed(c, t, CancelledManifest(c, t.manifest, now))
  {
  }

  lemma RecordingAllowed(c: Config, t: Transfer, index: nat, now: nat)
    requires Safe(c, t) && t.manifest.state == Active && index < t.manifest.partCount && index !in t.manifest.parts
    requires index in t.partFiles && t.partFiles[index].Regular?
    requires |t.partFiles[index].bytes| == ExpectedPartSize(LayoutOf(t.manifest), index)
    ensures SaveAllowed(c, t, RecordedManifest(c, t.manifest, index, t.partFiles[index].bytes, now))
  {
  }

  lemma OtherPartsStay(a: map<nat, Entry>, b: map<nat, Entry>, index: nat)
    requires a - {index} == b - {index}
    ensures forall i :: i in b && i != index ==> i in a && a[i] == b[i]
  {
    forall i | i in b && i != index ensures i in a && a[i] == b[i] {
      assert i in b - {index};
    }
  }

  lemma PartSizeIsKnown(c: Config, t: Transfer, index: nat)
    requires Safe(c, t) && t.manifest.state == Active && index < t.manifest.partCount
    ensures
      var expected := ExpectedPartSize(LayoutOf(t.manifest), index);
      expected >= 0 && (index in t.manifest.parts ==> t.manifest.parts[index].size == expected)
  {
    ExpectedPartSizeBounds(LayoutOf(t.manifest), index);
  }

  lemma FinalPathIsRight(c: Config, t: Transfer)
    requires Safe(c, t)
    ensures IsEntry(FinalPathOf(t.manifest), t.manifest.path, t.manifest.name)
    ensures IsLastComponent(FinalPathOf(t.manifest), t.manifest.name)
  {
    FinalPathIsEntry(t.manifest);
  }

  lemma VerdictMeans(t: Transfer)
    ensures VerdictOn(t) == Resume ==> ChecksumHolds(t) && t.manifest.name !in t.directory
    ensures VerdictOn(t) == Adopt ==> DestinationHolds(t, Content(t))
  {
  }

  lemma ReopenedKeepsContent(c: Config, t: Transfer, at: nat, u: Transfer)
    requires FullyRecorded(t.manifest) && u.manifest == ActiveManifest(c, t.manifest, at) && u.partFiles == t.partFiles
    ensures u.manifest.state == Active && SameUpload(t.manifest, u.manifest) && FullyRecorded(u.manifest)
    ensures Content(u) == Content(t) && (ChecksumHolds(t) ==> ChecksumHolds(u))
  {
  }

  lemma SafeContent(c: Config, t: Transfer)
    requires Safe(c, t) && (t.manifest.state == Finalizing || (t.manifest.state == Active && FullyRecorded(t.manifest)))
    ensures FullyRecorded(t.manifest) && t.manifest.parts.Keys == Indexes(t.manifest.partCount)
    ensures |Content(t)| == t.manifest.size
  {
    ContentHasDeclaredSize(c, t);
  }

  /** The file of a recorded part is there, with its recorded size and digest. */
  predicate IntactPart(m: Manifest, files: map<nat, Entry>, index: nat) {
    && index in m.parts && index < m.partCount && index in files && files[index].Regular?
    && |files[index].bytes| == m.parts[index].size && DigestOf(files[index].bytes) == m.parts[index].digest
  }

  /** The body has the size of this part and the digest that was announced for it. */
  predicate IsPart(m: Manifest, index: int, digest: Digest, body: seq<byte>) {
    |body| == ExpectedPartSize(LayoutOf(m), index) && digest == DigestOf(body)
  }

  class UploadStore {
    const config: Config
    const reliable: bool
    const undisturbed: bool

    var manifest: Manifest
    var partFiles: map<nat, Entry>
    var temporaries: map<nat, Entry>
    var directory: map<string, Entry>
    var now: nat
    ghost var confirmed: bool
    ghost var history: History

    ghost function Current(): Transfer
      reads this
    {
      Transfer(manifest, partFiles, temporaries, directory, confirmed)
    }

    ghost predicate Valid()
      reads this
    {
      Leads(config, history, Current(), undisturbed) && Safe(config, Current())
    }

    /** The store is in a recovery that has only taken steps of recovery. */
    ghost predicate Recovering()
      reads this
    {
      Recovers(config, history, Current())
    }

    /** Takes up the durable state a crash left behind. */
    constructor (config: Config, ghost t: Transfer, m: Manifest, parts: map<nat, Entry>, temporaries: map<nat, Entry>,
                 directory: map<string, Entry>, now: nat, reliable: bool, undisturbed: bool)
      requires Safe(config, t)
      requires t.manifest == m && t.partFiles == parts && t.temporaries == temporaries && t.directory == directory
      ensures Valid() && Current() == t && history == History(t, [], t, 0)
      ensures this.config == config && this.reliable == reliable && this.undisturbed == undisturbed
    {
      this.config, this.reliable, this.undisturbed, this.now := config, reliable, undisturbed, now;
      this.manifest, this.partFiles, this.temporaries, this.directory := m, parts, temporaries, directory;
      this.confirmed, this.history := t.confirmed, History(t, [], t, 0);
    }

    /*** Disk operations ***/

    method Fault() returns (fault: bool)
      ensures reliable ==> !fault
    {
      fault := *;
      if reliable {
        fault := false;
      }
    }

    method Tick()
      modifies `now
      ensures now >= old(now)
    {
      var later: nat :| later >= now;
      now := later;
    }

    /** One atomic change of the disk. */
    method Write(s: Step)
      requires Enabled(config, Current(), s)
      modifies `manifest, `partFiles, `temporaries, `directory, `confirmed
      ensures Current() == Apply(config, old(Current()), s)
    {
      var stage := StageName(manifest.id);
      match s
      case WriteTemporary(i, bytes) => temporaries := temporaries[i := Regular(bytes)];
      case DropTemporary(i) => temporaries := temporaries - {i};
      case PublishPart(i) => partFiles, temporaries := partFiles[i := temporaries[i]], temporaries - {i};
      case DropPart(i) => partFiles := partFiles - {i};
      case Save(next) => manifest, confirmed := next, confirmed && next.state != Active;
      case CreateStage => directory := directory[stage := Regular([])];
      case AppendStage(bytes) => directory := directory[stage := Regular(directory[stage].bytes + bytes)];
      case DropStage => directory := directory - {stage};
      case Link => directory, confirmed := directory[manifest.name := directory[stage]], true;
      case Confirm => confirmed := true;
      case Missing => confirmed := false;
      case Outside(changed) => directory := changed;
    }

    method Perform(s: Step)
      requires Valid() && Enabled(config, Current(), s)
      requires undisturbed ==> !s.Outside?
      modifies this
      ensures Valid() && now == old(now)
      ensures history == Noted(old(history), s)
      ensures Current() == Apply(config, old(Current()), s)
      ensures old(Recovering()) && old(RecoveryStep(config, Current(), s)) ==> Recovering()
    {
      StepExtends(config, history, Current(), s, undisturbed);
      Write(s);
      history := Noted(history, s);
    }

    /** The log only grows, so every crash point of the operation is a prefix of it. */
    twostate predicate Grown()
      reads this
    {
      old(history.steps) <= history.steps && history.start == old(history.start) && old(now) <= now
    }

    /** The log has grown within the same recovery. */
    twostate predicate Extended()
      reads this
    {
      Grown() && history.origin == old(history.origin) && history.mark == old(history.mark)
    }

    /** Other programs may create, change or remove anything but the hidden stage. */
    method Interfere()
      requires Valid()
      modifies this
      ensures Valid() && Extended() && now == old(now)
      ensures manifest == old(manifest) && partFiles == old(partFiles) && temporaries == old(temporaries)
      ensures confirmed == old(confirmed)
      ensures Stage(Current()) in directory <==> Stage(Current()) in old(directory)
      ensures Stage(Current()) in directory ==> directory[Stage(Current())] == old(directory)[Stage(Current())]
      ensures undisturbed ==> directory == old(directory) && history == old(history)
    {
      if !undisturbed {
        var stage := StageName(manifest.id);
        var changed: map<string, Entry> := *;
        if stage in directory {
          changed := changed[stage := directory[stage]];
        } else {
          changed := changed - {stage};
        }
        Perform(Outside(changed));
      }
    }

    /** Writes the manifest beside the old one and renames it into place. */
    method SaveManifest(next: Manifest) returns (ok: bool)
      requires Valid() && SaveAllowed(config, Current(), next)
      modifies this
      ensures Valid() && Extended() && now == old(now)
      ensures partFiles == old(partFiles) && temporaries == old(temporaries) && directory == old(directory)
      ensures manifest == next || manifest == old(manifest)
      ensures confirmed == if manifest == next then old(confirmed) && next.state != Active else old(confirmed)
      ensures ok ==> manifest == next
      ensures old(Recovering()) && old(RecoveryStep(config, Current(), Save(next))) ==> Recovering()
      ensures reliable ==> ok
    {
      var lost := Fault();
      if lost {
        return false;
      }
      Perform(Save(next));
      var unsynced := Fault();
      return !unsynced;
    }

    /** The directory is as in `d`, except that the stage may be gone. */
    ghost predicate OnlyStageRemoved(d: map<string, Entry>)
      reads this
    {
      directory == d || directory == d - {StageName(manifest.id)}
    }

    /** Removes the stage if it is there. */
    method RemoveStage() returns (ok: bool)
      requires Valid() && (manifest.state == Finalizing || manifest.state == Completed)
      modifies this
      ensures Valid() && Extended() && now == old(now)
      ensures manifest == old(manifest) && partFiles == old(partFiles) && temporaries == old(temporaries)
      ensures confirmed == old(confirmed) && OnlyStageRemoved(old(directory))
      ensures ok ==> StageName(manifest.id) !in directory
      ensures old(Recovering()) && old(RecoveryStep(config, Current(), DropStage) || Stage(Current()) !in directory) ==> Recovering()
      ensures reliable ==> ok
    {
      var fault := Fault();
      if fault {
        return false;
      }
      if StageName(manifest.id) in directory {
        Perform(DropStage);
      }
      return true;
    }

    /** Opens a part only if it is there with its recorded size and digest. */
    method OpenPart(index: nat) returns (ok: bool, bytes: seq<byte>)
      requires index in manifest.parts
      ensures ok ==> bytes == PartBytes(partFiles, index) && |bytes| == manifest.parts[index].size
      ensures ok ==> IntactPart(manifest, partFiles, index)
      ensures reliable && IntactPart(manifest, partFiles, index) ==> ok
      ensures reliable && Valid() && !Terminal(manifest.state) ==> ok
    {
      var part := manifest.parts[index];
      bytes := [];
      var fault := Fault();
      if fault || index >= manifest.partCount || index !in partFiles || !partFiles[index].Regular? || |partFiles[index].bytes| != part.size {
        return false, [];
      }
      bytes := partFiles[index].bytes;
      ok := DigestOf(bytes) == part.digest;
    }

    /** Detects a part that is missing, cut short or altered, whatever the state of the disk. */
    method VerifyParts() returns (ok: bool)
      ensures ok ==> Recorded(manifest.parts, partFiles)
      ensures reliable ==> (ok <==> forall index :: index in manifest.parts ==> IntactPart(manifest, partFiles, index))
      ensures reliable && Valid() && !Terminal(manifest.state) ==> ok
    {
      hide Valid;
      var rest := manifest.parts.Keys;
      while rest != {}
        invariant rest <= manifest.parts.Keys
        invariant forall index :: index in manifest.parts && index !in rest ==> IntactPart(manifest, partFiles, index)
        decreases |rest|
      {
        var index :| index in rest;
        var intact, bytes := OpenPart(index);
        if !intact {
          return false;
        }
        rest := rest - {index};
      }
      return true;
    }

    /** The digest of all parts in order, from the private files. */
    method PartsDigest() returns (ok: bool, digest: Digest)
      requires Valid() && manifest.state == Finalizing
      ensures ok ==> digest == DigestOf(Content(Current()))
      ensures reliable ==> ok
    {
      hide Leads, Recovers, Safe, ValidManifest, Recorded;
      SafeContent(config, Current());
      var hashed: seq<byte> := [];
      digest := DigestOf(hashed);
      for index := 0 to manifest.partCount
        invariant hashed == Assembled(partFiles, index)
      {
        assert Assembled(partFiles, index + 1) == Assembled(partFiles, index) + PartBytes(partFiles, index);
        assert index in Indexes(manifest.partCount);
        var intact, bytes := OpenPart(index);
        if !intact {
          return false, digest;
        }
        hashed := hashed + bytes;
      }
      ok := |hashed| == manifest.size;
      digest := DigestOf(hashed);
    }

    /** Removes one private file of an upload that is over. */
    method RemovePrivate(s: Step)
      requires Valid() && Terminal(manifest.state) && Enabled(config, Current(), s) && (s.DropPart? || s.DropTemporary?)
      modifies this
      ensures Valid() && Extended() && now == old(now)
      ensures old(Recovering()) ==> Recovering()
      ensures manifest == old(manifest) && directory == old(directory) && confirmed == old(confirmed)
      ensures partFiles == if s.DropPart? then old(partFiles) - {s.index} else old(partFiles)
      ensures temporaries == if s.DropPart? then old(temporaries) else old(temporaries) - {s.index}
    {
      Perform(s);
    }

    /** Removes the private parts directory, one entry at a time. */
    method RemoveParts() returns (ok: bool)
      requires Valid() && Terminal(manifest.state)
      modifies this
      ensures Valid() && Extended() && now == old(now)
      ensures old(Recovering()) ==> Recovering()
      ensures manifest == old(manifest) && directory == old(directory) && confirmed == old(confirmed)
      ensures ok ==> partFiles == map[] && temporaries == map[]
      ensures reliable ==> ok
    {
      hide Leads, Recovers, ValidManifest, Recorded;
      while partFiles != map[]
        invariant Valid() && Extended() && now == old(now)
        invariant old(Recovering()) ==> Recovering()
        invariant manifest == old(manifest) && directory == old(directory) && confirmed == old(confirmed)
        decreases partFiles.Keys
      {
        var fault := Fault();
        if fault {
          return false;
        }
        var index :| index in partFiles;
        RemovePrivate(DropPart(index));
      }
      while temporaries != map[]
        invariant Valid() && Extended() && now == old(now)
        invariant old(Recovering()) ==> Recovering()
        invariant manifest == old(manifest) && directory == old(directory) && confirmed == old(confirmed)
        invariant partFiles == map[]
        decreases temporaries.Keys
      {
        var fault := Fault();
        if fault {
          return false;
        }
        var index :| index in temporaries;
        RemovePrivate(DropTemporary(index));
      }
      return true;
    }

    /*** Recovery ***/

    /** The upload recorded by `m` is completed, with this digest. */
    ghost predicate CompletedFrom(m: Manifest, digest: Digest)
      reads this
    {
      && manifest.state == Completed
      && SameUpload(m, manifest)
      && manifest.finalDigest == Some(digest)
      && manifest.finalPath == Some(FinalPathOf(m))
      && manifest.completedAt == Some(now) && manifest.updatedAt == now && manifest.expiresAt == now + config.completionTTL
    }

    /** The upload is active, with what it had, for another inactivity time. */
    ghost predicate OpenAgain(m: Manifest)
      reads this
    {
      && manifest.state == Active && SameUpload(m, manifest) && manifest.parts == m.parts
      && manifest.stageName.None? && manifest.finalDigest.None?
      && manifest.updatedAt == now && manifest.expiresAt == now + config.inactivityTTL
    }

    /** Makes the completed manifest durable. */
    method SaveCompleted(digest: Digest) returns (ok: bool)
      requires Valid() && manifest.state == Finalizing && confirmed
      requires digest == DigestOf(Content(Current()))
      modifies this
      ensures Valid() && Extended()
      ensures old(Recovering()) && old(VerdictOn(Current())) == Adopt ==> Recovering()
      ensures partFiles == old(partFiles) && temporaries == old(temporaries) && directory == old(directory)
      ensures manifest == CompletedManifest(config, old(manifest), digest, now) || (manifest == old(manifest) && confirmed == old(confirmed))
      ensures ok ==> manifest == CompletedManifest(config, old(manifest), digest, now)
      ensures reliable ==> ok
    {
      hide Leads, Recovers;
      Tick();
      CompletionAllowed(config, Current(), now);
      ok := SaveManifest(CompletedManifest(config, manifest, digest, now));
    }

    method MarkCompleted(digest: Digest) returns (ok: bool)
      requires Valid() && manifest.state == Finalizing && confirmed
      requires digest == DigestOf(Content(Current()))
      modifies this
      ensures Valid() && Extended()
      ensures old(Recovering()) && old(VerdictOn(Current())) == Adopt ==> Recovering()
      ensures OnlyStageRemoved(old(directory))
      ensures CompletedFrom(old(manifest), digest) || (manifest == old(manifest) && partFiles == old(partFiles))
      ensures ok ==> CompletedFrom(old(manifest), digest) && partFiles == map[] && temporaries == map[] && StageName(manifest.id) !in directory
      ensures reliable ==> ok
    {
      hide Leads, Recovers, ValidManifest, Recorded;
      var fault := Fault();
      if fault {
        return false;
      }
      ok := SaveCompleted(digest);
      if ok {
        ok := RemoveLeftovers();
      }
    }

    /** Removes what a completed upload no longer needs. */
    method RemoveLeftovers() returns (ok: bool)
      requires Valid() && manifest.state == Completed
      modifies this
      ensures Valid() && Extended() && now == old(now)
      ensures old(Recovering()) ==> Recovering()
      ensures manifest == old(manifest) && confirmed == old(confirmed) && OnlyStageRemoved(old(directory))
      ensures ok ==> partFiles == map[] && temporaries == map[] && StageName(manifest.id) !in directory
      ensures reliable ==> ok
    {
      hide Leads, Recovers, ValidManifest, Recorded;
      ok := RemoveParts();
      if ok {
        ok := RemoveStage();
      }
    }

    method SaveActive() returns (ok: bool)
      requires Valid() && manifest.state == Finalizing && !confirmed && StageName(manifest.id) !in directory
      modifies this
      ensures Valid() && Extended()
      ensures old(Recovering()) && old(VerdictOn(Current())) == Resume ==> Recovering()
      ensures partFiles == old(partFiles) && temporaries == old(temporaries) && directory == old(directory)
      ensures manifest == ActiveManifest(config, old(manifest), now) || manifest == old(manifest)
      ensures ok ==> manifest == ActiveManifest(config, old(manifest), now)
      ensures reliable ==> ok
    {
      hide Leads, Recovers;
      Tick();
      ReopeningAllowed(config, Current(), now);
      ok := SaveManifest(ActiveManifest(config, manifest, now));
    }

    /** Sees that the destination is free, discards the stage and makes the upload active again. */
    method Reopen() returns (ok: bool)
      requires Valid() && manifest.state == Finalizing && manifest.name !in directory
      modifies this
      ensures Valid() && Extended()
      ensures undisturbed && old(Recovering()) && old(VerdictOn(Current())) == Resume ==> Recovering()
      ensures undisturbed ==> OnlyStageRemoved(old(directory))
      ensures partFiles == old(partFiles)
      ensures manifest == ActiveManifest(config, old(manifest), now) || manifest == old(manifest)
      ensures ok ==> manifest == ActiveManifest(config, old(manifest), now)
      ensures reliable ==> ok
    {
      hide Leads, Recovers, Safe, ValidManifest, Recorded, Assembled;
      Notice(Missing);
      ok := RemoveStage();
      if ok {
        Interfere();
        ok := SaveActive();
      }
    }

    /** Records what was seen of the destination. */
    method Notice(s: Step)
      requires Valid() && Enabled(config, Current(), s) && (s == Missing || s == Confirm)
      modifies this
      ensures Valid() && Extended() && now == old(now)
      ensures manifest == old(manifest) && partFiles == old(partFiles) && temporaries == old(temporaries)
      ensures directory == old(directory) && confirmed == (s == Confirm)
      ensures old(Recovering()) && old(RecoveryStep(config, Current(), s)) ==> Recovering()
    {
      Perform(s);
    }

    /** Takes a destination that holds the assembled parts for the published upload. */
    method AdoptDestination(digest: Digest) returns (ok: bool)
      requires Valid() && manifest.state == Finalizing && ChecksumHolds(Current())
      requires DestinationHolds(Current(), Content(Current())) && digest == DigestOf(Content(Current()))
      modifies this
      ensures Valid() && Extended()
      ensures undisturbed && old(Recovering()) ==> Recovering()
      ensures undisturbed ==> OnlyStageRemoved(old(directory))
      ensures CompletedFrom(old(manifest), digest) || (manifest == old(manifest) && partFiles == old(partFiles))
      ensures ok ==> CompletedFrom(old(manifest), digest) && partFiles == map[] && temporaries == map[]
      ensures reliable ==> ok
    {
      hide Leads, Recovers, ValidManifest, Recorded;
      Notice(Confirm);
      Interfere();
      ok := MarkCompleted(digest);
    }

    method RecoverFinalizing() returns (ok: bool)
      requires Valid() && manifest.state == Finalizing
      modifies this
      ensures Valid() && Grown()
      ensures history.origin == old(Current()) && history.mark == |old(history.steps)|
      ensures undisturbed ==> Recovering() && OnlyStageRemoved(old(directory))
      ensures CompletedFrom(old(manifest), DigestOf(old(Content(Current())))) ||
              manifest == ActiveManifest(config, old(manifest), now) || manifest == old(manifest)
      ensures manifest.state != Completed ==> partFiles == old(partFiles)
      ensures ok && manifest.state != Completed ==> OpenAgain(old(manifest))
      ensures manifest.state == Completed ==> old(ChecksumHolds(Current()))
      ensures ok ==> manifest.state != Finalizing
      ensures ok && manifest.state == Completed ==> partFiles == map[] && temporaries == map[]
      ensures undisturbed && ok ==> old(VerdictOn(Current())) == if manifest.state == Completed then Adopt else Resume
      ensures undisturbed && reliable ==> (ok <==> old(VerdictOn(Current())) != Refuse)
    {
      hide Leads, Recovers, Safe, ValidManifest, Recorded, RecoveryStep, Assembled;
      SafeContent(config, Current());
      StartRecovery();
      var hashed, digest := PartsDigest();
      if !hashed || (manifest.expected.Some? && manifest.expected.value != digest) {
        return false;
      }
      ok := AdoptOrReopen(digest);
    }

    /** A destination with the content of the parts is adopted; none means the upload is open again. */
    method AdoptOrReopen(digest: Digest) returns (ok: bool)
      requires Valid() && manifest.state == Finalizing && ChecksumHolds(Current())
      requires digest == DigestOf(Content(Current())) && |Content(Current())| == manifest.size && (undisturbed ==> Recovering())
      modifies this
      ensures Valid() && Extended()
      ensures undisturbed ==> Recovering() && OnlyStageRemoved(old(directory))
      ensures CompletedFrom(old(manifest), digest) || manifest == ActiveManifest(config, old(manifest), now) || manifest == old(manifest)
      ensures manifest.state != Completed ==> partFiles == old(partFiles)
      ensures ok ==> manifest.state != Finalizing
      ensures ok && manifest.state == Completed ==> partFiles == map[] && temporaries == map[]
      ensures undisturbed && ok ==> old(VerdictOn(Current())) == if manifest.state == Completed then Adopt else Resume
      ensures undisturbed && reliable ==> (ok <==> old(VerdictOn(Current())) != Refuse)
    {
      hide Leads, Recovers, Safe, ValidManifest, Recorded, RecoveryStep, Assembled;
      Interfere();
      var fault := Fault();
      if fault {
        return false;
      }
      if manifest.name in directory {
        var entry := directory[manifest.name];
        if !entry.Regular? || |entry.bytes| != manifest.size || DigestOf(entry.bytes) != digest {
          return false;
        }
        ok := AdoptDestination(digest);
      } else {
        ok := Reopen();
      }
    }

    ghost method StartRecovery()
      requires Valid()
      modifies `history
      ensures Valid() && Recovering()
      ensures history == old(history).(origin := Current(), mark := |old(history).steps|)
    {
      history := history.(origin := Current(), mark := |history.steps|);
      assert history.steps[history.mark..] == [];
    }

    /** What a restart does with the upload. */
    method Recover() returns (ok: bool)
      requires Valid()
      modifies this
      ensures Valid() && Grown()
      ensures history.origin == old(Current()) && history.mark == |old(history.steps)|
      ensures undisturbed ==> Recovering() && Final(Current()) == Final(old(Current()))
      ensures undisturbed && reliable ==> (ok <==> old(VerdictOn(Current())) != Refuse)
      ensures ok ==> manifest.state != Finalizing && (Terminal(manifest.state) ==> partFiles == map[])
    {
      hide Leads, Recovers;
      StartRecovery();
      if Terminal(manifest.state) {
        ok := RemoveParts();
      } else {
        ok := VerifyParts();
        if ok && manifest.state == Finalizing {
          ok := RecoverFinalizing();
        }
      }
      if undisturbed {
        RecoverySettles(config, history, Current());
      }
    }

    /*** Completing an upload ***/

    /** Only the stage may differ from `d`. */
    ghost predicate OnlyStageDiffers(d: map<string, Entry>)
      reads this
    {
      directory - {StageName(manifest.id)} == d - {StageName(manifest.id)}
    }

    /** Then the destination entry is the same in both. */
    lemma DestinationIsTheSame(d: map<string, Entry>)
      requires Valid() && OnlyStageDiffers(d)
      ensures manifest.name in directory <==> manifest.name in d
      ensures manifest.name in d ==> directory[manifest.name] == d[manifest.name]
    {
      StageNameIsStageName(manifest.id);
      var rest := directory - {StageName(manifest.id)};
      assert manifest.name in directory <==> manifest.name in rest;
      assert manifest.name in d <==> manifest.name in d - {StageName(manifest.id)};
    }

    method PerformOnStage(s: Step)
      requires Valid() && Enabled(config, Current(), s) && (s == CreateStage || s.AppendStage?)
      modifies this
      ensures Valid() && Extended() && now == old(now)
      ensures manifest == old(manifest) && partFiles == old(partFiles) && temporaries == old(temporaries)
      ensures confirmed == old(confirmed) && OnlyStageDiffers(old(directory))
      ensures StageName(manifest.id) in directory
      ensures s == CreateStage ==> directory[StageName(manifest.id)] == Regular([])
      ensures s.AppendStage? ==> directory[StageName(manifest.id)] == Regular(old(directory)[StageName(manifest.id)].bytes + s.bytes)
    {
      hide Leads, Recovers, Safe, RecoveryStep, Recovering;
      Perform(s);
    }

    /** Appends one part to the stage.  A failed copy may have written a part of it. */
    method AppendPart(index: nat) returns (ok: bool)
      requires Valid() && manifest.state == Finalizing && manifest.finalDigest.None? && index in manifest.parts
      requires StageName(manifest.id) in directory && directory[StageName(manifest.id)].Regular?
      modifies this
      ensures Valid() && Extended() && now == old(now)
      ensures manifest == old(manifest) && partFiles == old(partFiles) && temporaries == old(temporaries)
      ensures confirmed == old(confirmed) && OnlyStageDiffers(old(directory))
      ensures StageName(manifest.id) in directory
      ensures ok ==> directory[StageName(manifest.id)] == Regular(old(directory)[StageName(manifest.id)].bytes + PartBytes(partFiles, index))
      ensures reliable ==> ok
    {
      hide Leads, Recovers, Safe, ValidManifest, Recorded;
      var intact, bytes := OpenPart(index);
      if !intact {
        return false;
      }
      var fault := Fault();
      if fault {
        var copied: nat :| copied <= |bytes|;
        PerformOnStage(AppendStage(bytes[..copied]));
        return false;
      }
      PerformOnStage(AppendStage(bytes));
      return true;
    }

    /** Appends every part, in order, to the stage. */
    method AssembleParts() returns (ok: bool)
      requires Valid() && manifest.state == Finalizing && manifest.finalDigest.None?
      requires StageName(manifest.id) in directory && directory[StageName(manifest.id)] == Regular([])
      modifies this
      ensures Valid() && Extended() && now == old(now)
      ensures manifest == old(manifest) && partFiles == old(partFiles) && temporaries == old(temporaries)
      ensures confirmed == old(confirmed) && OnlyStageDiffers(old(directory))
      ensures StageName(manifest.id) in directory
      ensures ok ==> directory[StageName(manifest.id)] == Regular(Content(Current()))
      ensures reliable ==> ok
    {
      hide Recovers, Safe, ValidManifest, Recorded;
      SafeContent(config, Current());
      hide Leads;
      var written := 0;
      for index := 0 to manifest.partCount
        invariant Valid() && Extended() && now == old(now)
        invariant manifest == old(manifest) && partFiles == old(partFiles) && temporaries == old(temporaries)
        invariant confirmed == old(confirmed) && OnlyStageDiffers(old(directory))
        invariant StageName(manifest.id) in directory
        invariant directory[StageName(manifest.id)] == Regular(Assembled(partFiles, index))
        invariant written == |Assembled(partFiles, index)|
      {
        assert index in Indexes(manifest.partCount);
        var appended := AppendPart(index);
        if !appended {
          return false;
        }
        written := written + |PartBytes(partFiles, index)|;
      }
      ok := written == manifest.size;
    }

    /** Creates a fresh stage, without replacing anything, and fills it from the parts. */
    method FillStage() returns (ok: bool)
      requires Valid() && manifest.state == Finalizing && manifest.finalDigest.None?
      modifies this
      ensures Valid() && Extended() && now == old(now)
      ensures manifest == old(manifest) && partFiles == old(partFiles) && temporaries == old(temporaries)
      ensures confirmed == old(confirmed) && OnlyStageDiffers(old(directory))
      ensures ok ==> StageName(manifest.id) in directory && directory[StageName(manifest.id)] == Regular(Content(Current()))
      ensures reliable ==> ok
    {
      hide Leads, Recovers;
      ok := RemoveStage();
      assert OnlyStageDiffers(old(directory));
      var fault := Fault();
      if !ok || fault {
        return false;
      }
      PerformOnStage(CreateStage);
      ok := AssembleParts();
    }

    method SaveDigest(digest: Digest) returns (ok: bool)
      requires Valid() && manifest.state == Finalizing && ChecksumHolds(Current())
      requires digest == DigestOf(Content(Current()))
      modifies this
      ensures Valid() && Extended()
      ensures partFiles == old(partFiles) && temporaries == old(temporaries) && directory == old(directory)
      ensures confirmed == old(confirmed)
      ensures manifest == old(manifest).(finalDigest := Some(digest), updatedAt := now) || manifest == old(manifest)
      ensures ok ==> manifest.finalDigest == Some(digest)
      ensures reliable ==> ok
    {
      hide Leads, Recovers;
      Tick();
      ok := SaveManifest(manifest.(finalDigest := Some(digest), updatedAt := now));
    }

    /** Builds the stage from the parts, checks the requested checksum, and makes the final
        digest durable. */
    method BuildStage() returns (r: Result)
      requires Valid() && manifest.state == Finalizing && manifest.finalDigest.None? && !confirmed
      modifies this
      ensures Valid() && Extended()
      ensures partFiles == old(partFiles) && temporaries == old(temporaries) && !confirmed && OnlyStageDiffers(old(directory))
      ensures manifest == old(manifest).(finalDigest := manifest.finalDigest, updatedAt := manifest.updatedAt)
      ensures r.Done? ==> manifest.finalDigest == Some(DigestOf(Content(Current()))) && ChecksumHolds(Current())
      ensures r.Done? ==> StageName(manifest.id) in directory && directory[StageName(manifest.id)] == Regular(Content(Current()))
      ensures r.Done? || (r.Failed? && r.error != DestinationExists && r.error != ResetFailed)
      ensures reliable ==> (r.Done? <==> ChecksumHolds(Current()))
    {
      hide Leads, Recovers, Safe;
      var ok := FillStage();
      if !ok {
        return Failed(SizeMismatch);
      }
      var digest := DigestOf(directory[StageName(manifest.id)].bytes);
      if manifest.expected.Some? && manifest.expected.value != digest {
        return Failed(InvalidDigest);
      }
      ok := SaveDigest(digest);
      r := if ok then Done else Failed(IoError);
    }

    /** Links the finished stage to the destination name, unless that name is taken. */
    method LinkStage() returns (r: Result)
      requires Valid() && manifest.state == Finalizing && manifest.finalDigest == Some(DigestOf(Content(Current())))
      requires StageName(manifest.id) in directory && directory[StageName(manifest.id)] == Regular(Content(Current()))
      requires ChecksumHolds(Current()) && !confirmed
      modifies this
      ensures Valid() && Extended() && now == old(now)
      ensures manifest == old(manifest) && partFiles == old(partFiles) && temporaries == old(temporaries)
      ensures r.Done? ==> confirmed && DestinationHolds(Current(), Content(Current())) && (undisturbed ==> old(manifest.name !in directory))
      ensures r.Done? && undisturbed ==> directory == old(directory)[manifest.name := Regular(Content(Current()))]
      ensures r.Done? || (r.Failed? && r.error != ResetFailed && !confirmed)
      ensures !r.Done? && undisturbed ==> directory == old(directory)
      ensures r == Failed(DestinationExists) && undisturbed ==> old(manifest.name in directory)
      ensures reliable && undisturbed ==> (r.Done? <==> old(manifest.name !in directory))
    {
      hide Leads, Recovers;
      Interfere();
      if manifest.name in directory {
        return Failed(DestinationExists);
      }
      var fault := Fault();
      if fault {
        return Failed(IoError);
      }
      Perform(Link);
      return Done;
    }

    /** Drops the stage of a failed completion and makes the upload active again. */
    method Reset(cause: Error) returns (r: Result)
      requires Valid() && manifest.state == Finalizing && !confirmed && cause != ResetFailed
      modifies this
      ensures Valid() && Extended()
      ensures partFiles == old(partFiles) && temporaries == old(temporaries) && OnlyStageRemoved(old(directory))
      ensures manifest == ActiveManifest(config, old(manifest), now) || manifest == old(manifest)
      ensures StillOpen(old(manifest), old(partFiles))
      ensures r == Failed(cause) || r == Failed(ResetFailed)
      ensures r == Failed(cause) ==>
                manifest == ActiveManifest(config, old(manifest), now) && StageName(manifest.id) !in directory && OpenAgain(old(manifest))
      ensures reliable ==> r == Failed(cause) && manifest.state == Active && StageName(manifest.id) !in directory
    {
      hide Leads, Recovers;
      var ok := RemoveStage();
      if ok {
        ok := SaveActive();
      }
      r := Failed(if ok then cause else ResetFailed);
    }

    method SaveFinalizing() returns (ok: bool)
      requires Valid() && manifest.state == Active && FullyRecorded(manifest)
      modifies this
      ensures Valid() && Extended()
      ensures partFiles == old(partFiles) && temporaries == old(temporaries) && directory == old(directory)
      ensures manifest == FinalizingManifest(config, old(manifest), now) || manifest == old(manifest)
      ensures ok ==> manifest == FinalizingManifest(config, old(manifest), now) && !confirmed
      ensures ok ==> manifest.state == Finalizing && manifest.stageName == Some(".fileharbor-upload-" + manifest.id + ".partial")
      ensures ok ==> manifest.updatedAt == now && manifest.expiresAt == now + config.inactivityTTL
      ensures reliable ==> ok
    {
      hide Leads, Recovers;
      Tick();
      FinalizingAllowed(config, Current(), now);
      ok := SaveManifest(FinalizingManifest(config, manifest, now));
    }

    /** The answer to a completion: the manifest is completed with the digest of the parts. */
    ghost predicate Answered(m: Manifest, content: seq<byte>)
      reads this
    {
      && CompletedFrom(m, DigestOf(content))
      && |content| == m.size
      && IsEntry(manifest.finalPath.value, m.path, m.name) && IsLastComponent(manifest.finalPath.value, m.name)
      && (m.expected.Some? ==> m.expected == Some(DigestOf(content)))
      && (undisturbed ==> DestinationHolds(Current(), content))
    }

    /** The upload is not over, with all the parts it had. */
    ghost predicate StillOpen(m: Manifest, files: map<nat, Entry>)
      reads this
    {
      !Terminal(manifest.state) && SameUpload(m, manifest) && manifest.parts == m.parts && partFiles == files
    }

    /** From the finalizing manifest to the completed one, or back to the active one. */
    method PublishStage() returns (r: Result)
      requires Valid() && manifest.state == Finalizing && manifest.finalDigest.None? && !confirmed
      modifies this
      ensures Valid() && Extended()
      ensures r.Done? ==> Answered(old(manifest), old(Content(Current()))) && (undisturbed ==> old(manifest.name !in directory))
      ensures r.Done? || r.Failed?
      ensures r == Failed(DestinationExists) && undisturbed ==> old(manifest.name in directory)
      ensures !r.Done? ==> StillOpen(old(manifest), old(partFiles)) || Answered(old(manifest), old(Content(Current())))
      ensures !r.Done? && reliable && undisturbed ==>
                && manifest.state == Active && manifest.id == old(manifest.id)
                && OnlyStageDiffers(old(directory)) && StageName(manifest.id) !in directory
      ensures reliable && undisturbed ==> (r.Done? <==> old(manifest.name !in directory && ChecksumHolds(Current())))
    {
      hide Leads, Recovers, VerdictOn, RecoveryStep, Safe, ValidManifest, Recorded, Assembled, Answered, StillOpen;
      SafeContent(config, Current());
      ghost var m, content, files := manifest, Content(Current()), partFiles;
      r := BuildStage();
      DestinationIsTheSame(old(directory));
      ghost var built, d := manifest, directory;
      assert Content(Current()) == content && (ChecksumHolds(Current()) <==> old(ChecksumHolds(Current())));
      hide Content, ChecksumHolds;
      if r.Failed? {
        r := Reset(r.error);
      } else {
        r := PublishBuilt();
      }
      AnswerIsTheSame(m, built, content, files);
      StageStillDiffers(m.id, old(directory), d);
    }

    lemma StageStillDiffers(id: string, d: map<string, Entry>, e: map<string, Entry>)
      requires d - {StageName(id)} == e - {StageName(id)}
      ensures manifest.id == id && OnlyStageRemoved(e) ==> OnlyStageDiffers(d)
    {
      assert e - {StageName(id)} - {StageName(id)} == e - {StageName(id)};
    }

    /** Links the finished stage and completes the upload, or resets it. */
    method PublishBuilt() returns (r: Result)
      requires Valid() && manifest.state == Finalizing && !confirmed
      requires manifest.finalDigest == Some(DigestOf(Content(Current())))
      requires StageName(manifest.id) in directory && directory[StageName(manifest.id)] == Regular(Content(Current()))
      requires |Content(Current())| == manifest.size && ChecksumHolds(Current())
      modifies this
      ensures Valid() && Extended()
      ensures r.Done? ==> Answered(old(manifest), old(Content(Current()))) && (undisturbed ==> old(manifest.name !in directory))
      ensures r.Done? || r.Failed?
      ensures r == Failed(DestinationExists) && undisturbed ==> old(manifest.name in directory)
      ensures !r.Done? ==> StillOpen(old(manifest), old(partFiles)) || Answered(old(manifest), old(Content(Current())))
      ensures !r.Done? && reliable && undisturbed ==>
                && manifest.state == Active && manifest.id == old(manifest.id)
                && OnlyStageRemoved(old(directory)) && StageName(manifest.id) !in directory
      ensures reliable && undisturbed ==> (r.Done? <==> old(manifest.name !in directory))
    {
      hide Leads, Recovers, VerdictOn, RecoveryStep, Safe, ValidManifest, Recorded, Assembled;
      r := LinkStage();
      if r.Failed? {
        r := Reset(r.error);
      } else {
        r := FinishPublishing();
      }
    }

    lemma AnswerIsTheSame(m: Manifest, n: Manifest, content: seq<byte>, files: map<nat, Entry>)
      requires SameUpload(m, n) && n.parts == m.parts
      ensures Answered(n, content) ==> Answered(m, content)
      ensures StillOpen(n, files) ==> StillOpen(m, files)
    {
    }

    /** After the link: the completed manifest is saved, unless the directory cannot be synced. */
    method FinishPublishing() returns (r: Result)
      requires Valid() && manifest.state == Finalizing && confirmed
      requires manifest.finalDigest == Some(DigestOf(Content(Current())))
      requires |Content(Current())| == manifest.size && ChecksumHolds(Current())
      requires undisturbed ==> DestinationHolds(Current(), Content(Current()))
      modifies this
      ensures Valid() && Extended()
      ensures r.Done? ==> Answered(old(manifest), old(Content(Current())))
      ensures r.Done? || r == Failed(IoError)
      ensures !r.Done? ==> StillOpen(old(manifest), old(partFiles)) || Answered(old(manifest), old(Content(Current())))
      ensures reliable ==> r.Done?
    {
      hide Leads, Recovers, VerdictOn, RecoveryStep, ValidManifest, Recorded, Assembled, IsEntry, IsLastComponent, FinalPathOf;
      NameIsNotStage(config, Current());
      FinalPathIsRight(config, Current());
      hide Safe;
      var fault := Fault();
      if fault {
        return Failed(IoError);
      }
      Interfere();
      var ok := MarkCompleted(manifest.finalDigest.value);
      r := if ok then Done else Failed(IoError);
    }

    lemma StageIsGone(d: map<string, Entry>)
      requires OnlyStageDiffers(d) && StageName(manifest.id) !in directory
      ensures OnlyStageRemoved(d)
    {
      assert directory - {StageName(manifest.id)} == directory;
    }

    /** Publishes an active upload without replacing anything.  An active manifest has no final
        digest, so an existing destination is never adopted here. */
    method Publish(enoughSpace: bool) returns (r: Result)
      requires Valid() && manifest.state == Active && FullyRecorded(manifest)
      modifies this
      ensures Valid() && Extended()
      ensures r.Done? ==> Answered(old(manifest), old(Content(Current()))) && (undisturbed ==> old(manifest.name !in directory))
      ensures r.Done? || r.Failed?
      ensures !r.Done? ==> StillOpen(old(manifest), old(partFiles)) || Answered(old(manifest), old(Content(Current())))
      ensures !r.Done? && reliable && undisturbed ==> manifest.state == Active && OnlyStageRemoved(old(directory))
      ensures reliable && undisturbed && enoughSpace ==>
                (r.Done? <==> old(manifest.name !in directory && ChecksumHolds(Current())))
      ensures reliable && undisturbed && old(manifest.name in directory) ==> r == Failed(DestinationExists) && Current() == old(Current())
      ensures reliable && undisturbed && old(manifest.name !in directory) && !enoughSpace ==>
                r == Failed(InsufficientStorage) && Current() == old(Current())
    {
      assert manifest.finalDigest.None?;
      hide Leads, Recovers, Safe, VerdictOn, RecoveryStep, ValidManifest, Recorded;
      var fault := Fault();
      if fault {
        return Failed(UploadConflict);
      }
      Interfere();
      if manifest.name in directory {
        return Failed(DestinationExists);
      }
      if !enoughSpace {
        return Failed(InsufficientStorage);
      }
      r := StartPublishing();
    }

    /** Makes the intent durable, then builds and links the stage. */
    method StartPublishing() returns (r: Result)
      requires Valid() && manifest.state == Active && FullyRecorded(manifest)
      modifies this
      ensures Valid() && Extended()
      ensures r.Done? ==> Answered(old(manifest), old(Content(Current()))) && (undisturbed ==> old(manifest.name !in directory))
      ensures r.Done? || r.Failed?
      ensures !r.Done? ==> StillOpen(old(manifest), old(partFiles)) || Answered(old(manifest), old(Content(Current())))
      ensures !r.Done? && reliable && undisturbed ==> manifest.state == Active && OnlyStageRemoved(old(directory))
      ensures reliable && undisturbed ==> (r.Done? <==> old(manifest.name !in directory && ChecksumHolds(Current())))
    {
      assert manifest.finalDigest.None?;
      hide Leads, Recovers, Safe, VerdictOn, RecoveryStep, ValidManifest, Recorded, Assembled, Answered;
      ghost var m, content, files := manifest, Content(Current()), partFiles;
      var ok := SaveFinalizing();
      var fault := Fault();
      if !ok || fault {
        return Failed(IoError);
      }
      ghost var n := manifest;
      assert Content(Current()) == content && (ChecksumHolds(Current()) <==> old(ChecksumHolds(Current())));
      hide ChecksumHolds, Content, StillOpen;
      r := PublishStage();
      AnswerIsTheSame(m, n, content, files);
      if !r.Done? && reliable && undisturbed {
        StageIsGone(old(directory));
      }
    }

    predicate Expired()
      reads this
    {
      now >= manifest.expiresAt
    }

    /** Whether an unexpired upload can be completed, when nothing fails and nobody interferes. */
    ghost predicate Completable()
      reads this
    {
      || manifest.state == Completed
      || VerdictOn(Current()) == Adopt
      || (!Terminal(manifest.state) && FullyRecorded(manifest) && ChecksumHolds(Current()) && manifest.name !in directory)
    }

    /** Completes an upload, or repeats the answer of an earlier completion. */
    method Complete(enoughSpace: bool) returns (r: Result)
      requires Valid()
      modifies this
      ensures Valid() && Grown()
      ensures old(now >= manifest.expiresAt) ==> r == Failed(UploadExpired) && Current() == old(Current())
      ensures old(now < manifest.expiresAt && manifest.state == Cancelled) ==> r == Failed(UploadCancelled) && Current() == old(Current())
      ensures old(now < manifest.expiresAt && manifest.state == Completed) ==> r == Replayed && Current() == old(Current())
      ensures old(now < manifest.expiresAt && manifest.state == Active && |manifest.parts| != manifest.partCount) ==>
                r == Failed(UploadIncomplete) && Current() == old(Current())
      ensures !r.Failed? && old(manifest.state) == Completed ==> r.Replayed? && manifest == old(manifest)
      ensures !r.Failed? && old(manifest.state) != Completed ==>
                old(!Terminal(manifest.state)) && Answered(old(manifest), old(Content(Current())))
      ensures reliable && undisturbed && enoughSpace && old(!Expired()) ==> (!r.Failed? <==> old(Completable()))
    {
      if now >= manifest.expiresAt {
        return Failed(UploadExpired);
      }
      if manifest.state == Cancelled {
        return Failed(UploadCancelled);
      }
      if manifest.state == Completed {
        return Replayed;
      }
      if manifest.state == Finalizing {
        r := CompleteFinalizing(enoughSpace);
      } else {
        r := CompleteActive(enoughSpace);
      }
    }

    method CompleteActive(enoughSpace: bool) returns (r: Result)
      requires Valid() && manifest.state == Active
      modifies this
      ensures Valid() && Extended()
      ensures r.Done? ==> Answered(old(manifest), old(Content(Current())))
      ensures r.Done? || r.Failed?
      ensures |old(manifest.parts)| != old(manifest.partCount) ==> r == Failed(UploadIncomplete) && Current() == old(Current())
      ensures reliable && undisturbed && enoughSpace ==> (r.Done? <==> old(Completable()))
    {
      if |manifest.parts| != manifest.partCount {
        return Failed(UploadIncomplete);
      }
      hide Recovers, Safe, ValidManifest, Recorded;
      SafeContent(config, Current());
      hide Leads;
      r := Publish(enoughSpace);
    }

    /** Settles an interrupted completion: it is answered, or the upload is open again. */
    method Reconcile() returns (ok: bool)
      requires Valid() && manifest.state == Finalizing
      modifies this
      ensures Valid() && Grown()
      ensures ok && manifest.state == Completed ==> Answered(old(manifest), old(Content(Current())))
      ensures ok && manifest.state != Completed ==>
                && manifest.state == Active && SameUpload(old(manifest), manifest) && FullyRecorded(manifest)
                && Content(Current()) == old(Content(Current()))
                && (undisturbed ==> ChecksumHolds(Current()) && manifest.name !in directory)
      ensures reliable && undisturbed ==> (ok <==> old(VerdictOn(Current())) != Refuse)
    {
      hide Leads, Recovers, Safe, Recorded, RecoveryStep, Assembled, ValidManifest, VerdictOn, Content, FullyRecorded, IsEntry, IsLastComponent, FinalPathOf;
      FinalPathIsRight(config, Current());
      SafeContent(config, Current());
      NameIsNotStage(config, Current());
      VerdictMeans(Current());
      ghost var before := Current();
      ok := RecoverFinalizing();
      if ok && manifest.state != Completed {
        ReopenedKeepsContent(config, before, now, Current());
      }
    }

    method CompleteFinalizing(enoughSpace: bool) returns (r: Result)
      requires Valid() && manifest.state == Finalizing
      modifies this
      ensures Valid() && Grown()
      ensures !r.Failed? ==> Answered(old(manifest), old(Content(Current())))
      ensures reliable && undisturbed && enoughSpace ==> (!r.Failed? <==> old(Completable()))
    {
      assert Completable() <==> VerdictOn(Current()) != Refuse;
      hide Leads, Recovers, Safe, ValidManifest, Recorded, RecoveryStep, VerdictOn, ChecksumHolds;
      var ok := Reconcile();
      if !ok {
        return Failed(IoError);
      }
      if manifest.state == Completed {
        return Replayed;
      }
      hide Content;
      r := CompleteActive(enoughSpace);
    }

    /*** Cancelling an upload ***/

    method SaveCancelled() returns (ok: bool)
      requires Valid() && manifest.state == Active
      modifies this
      ensures Valid() && Extended()
      ensures directory == old(directory)
      ensures manifest == CancelledManifest(config, old(manifest), now) || manifest == old(manifest)
      ensures ok ==> manifest.state == Cancelled
      ensures reliable ==> ok
    {
      hide Leads, Recovers;
      Tick();
      CancellationAllowed(config, Current(), now);
      ok := SaveManifest(CancelledManifest(config, manifest, now));
    }

    /** Cancels an upload that is not published.  A finalizing upload is reconciled first, so a
        destination that holds the parts turns the cancellation into a conflict. */
    method Cancel() returns (r: Result)
      requires Valid()
      modifies this
      ensures Valid() && Grown()
      ensures !r.Failed? ==> manifest.state == Cancelled && SameUpload(old(manifest), manifest) && (r.Done? ==> partFiles == map[])
      ensures r.Done? ==> manifest.updatedAt == now && manifest.expiresAt == now + config.completionTTL
      ensures old(Expired()) ==> r == Failed(UploadExpired) && manifest == old(manifest)
      ensures old(!Expired() && manifest.state == Cancelled) ==> r == Replayed && manifest == old(manifest)
      ensures r.Replayed? ==> old(manifest.state) == Cancelled
      ensures undisturbed && old(manifest.state == Finalizing && VerdictOn(Current()) != Resume) ==> r.Failed?
      ensures old(manifest.state) == Completed ==> r.Failed? && manifest == old(manifest)
      ensures undisturbed ==> OnlyStageRemoved(old(directory))
      ensures reliable && undisturbed && old(!Expired()) && old(manifest.state == Active || VerdictOn(Current()) == Resume) ==> !r.Failed?
    {
      hide Leads, Recovers, Safe;
      if now >= manifest.expiresAt {
        return Failed(UploadExpired);
      }
      if manifest.state == Completed {
        return Failed(UploadConflict);
      }
      if manifest.state == Finalizing {
        var settled := RecoverFinalizing();
        if !settled {
          return Failed(IoError);
        }
        if manifest.state == Completed {
          return Failed(UploadConflict);
        }
      }
      r := CancelSettled();
    }

    method CancelSettled() returns (r: Result)
      requires Valid() && (manifest.state == Active || manifest.state == Cancelled)
      modifies this
      ensures Valid() && Extended()
      ensures !r.Failed? ==> manifest.state == Cancelled && SameUpload(old(manifest), manifest) && (r.Done? ==> partFiles == map[])
      ensures r.Done? ==> manifest.updatedAt == now && manifest.expiresAt == now + config.completionTTL
      ensures r.Replayed? <==> old(manifest.state) == Cancelled
      ensures r.Replayed? ==> manifest == old(manifest)
      ensures directory == old(directory) && manifest.id == old(manifest.id)
      ensures reliable ==> !r.Failed?
    {
      if manifest.state == Cancelled {
        return Replayed;
      }
      assert manifest.stageName.None?;
      hide Leads, Recovers, Safe;
      var ok := SaveCancelled();
      if ok {
        ok := RemoveParts();
      }
      r := if ok then Done else Failed(IoError);
    }

    /*** Writing a part ***/

    method PerformOnParts(s: Step)
      requires Valid() && Enabled(config, Current(), s) && manifest.state == Active
      requires s.WriteTemporary? || s.DropTemporary? || s.PublishPart? || s.DropPart?
      modifies this
      ensures Valid() && Extended() && now == old(now)
      ensures manifest == old(manifest) && directory == old(directory) && confirmed == old(confirmed)
      ensures partFiles == if s.DropPart? then old(partFiles) - {s.index}
                           else if s.PublishPart? then old(partFiles)[s.index := old(temporaries)[s.index]]
                           else old(partFiles)
      ensures temporaries == if s.WriteTemporary? then old(temporaries)[s.index := Regular(s.bytes)]
                             else if s.DropPart? then old(temporaries)
                             else old(temporaries) - {s.index}
    {
      Perform(s);
    }

    /** Removes an unrecorded leftover of this part.  Anything but a regular file is refused. */
    method ClearPart(index: nat) returns (ok: bool)
      requires Valid() && manifest.state == Active && index !in manifest.parts
      modifies this
      ensures Valid() && Extended() && now == old(now)
      ensures manifest == old(manifest) && directory == old(directory) && confirmed == old(confirmed)
      ensures partFiles - {index} == old(partFiles) - {index}
      ensures ok ==> index !in partFiles && index !in temporaries
      ensures reliable ==> (ok <==> old(LeftoversAreFiles(index)))
    {
      hide Leads, Recovers, Safe;
      var fault := Fault();
      if fault || (index in partFiles && !partFiles[index].Regular?) {
        return false;
      }
      if index in partFiles {
        PerformOnParts(DropPart(index));
      }
      fault := Fault();
      if fault || (index in temporaries && !temporaries[index].Regular?) {
        return false;
      }
      if index in temporaries {
        PerformOnParts(DropTemporary(index));
      }
      return true;
    }

    /** Copies the body to a temporary file, checks it, and renames it into place. */
    method ReceivePart(index: nat, digest: Digest, body: seq<byte>, expected: nat) returns (r: Result)
      requires Valid() && manifest.state == Active && index !in manifest.parts
      requires index !in partFiles && index !in temporaries
      modifies this
      ensures Valid() && Extended() && now == old(now)
      ensures manifest == old(manifest) && directory == old(directory) && confirmed == old(confirmed)
      ensures partFiles - {index} == old(partFiles) - {index}
      ensures r.Done? ==> |body| == expected && digest == DigestOf(body) && index in partFiles && partFiles[index] == Regular(body)
      ensures r.Done? || (r.Failed? && r.error != PartConflict)
      ensures reliable ==> (r.Done? <==> |body| == expected && digest == DigestOf(body))
      ensures reliable ==> index !in temporaries && (!r.Done? ==> index !in partFiles)
      ensures reliable && |body| != expected ==> r == Failed(SizeMismatch)
      ensures reliable && |body| == expected && digest != DigestOf(body) ==> r == Failed(InvalidDigest)
    {
      hide Leads, Recovers, Safe;
      var copied := if |body| <= expected then body else body[..expected + 1];
      PerformOnParts(WriteTemporary(index, copied));
      var fault := Fault();
      if fault || |copied| != expected {
        PerformOnParts(DropTemporary(index));
        return Failed(SizeMismatch);
      }
      if DigestOf(copied) != digest {
        PerformOnParts(DropTemporary(index));
        return Failed(InvalidDigest);
      }
      fault := Fault();
      if fault {
        return Failed(IoError);
      }
      PerformOnParts(PublishPart(index));
      return Done;
    }

    method SaveRecorded(index: nat) returns (ok: bool)
      requires Valid() && manifest.state == Active && index < manifest.partCount && index !in manifest.parts
      requires index in partFiles && partFiles[index].Regular?
      requires |partFiles[index].bytes| == ExpectedPartSize(LayoutOf(manifest), index)
      modifies this
      ensures Valid() && Extended()
      ensures partFiles == old(partFiles) && temporaries == old(temporaries)
      ensures directory == old(directory) && confirmed == old(confirmed)
      ensures manifest == RecordedManifest(config, old(manifest), index, partFiles[index].bytes, now) || manifest == old(manifest)
      ensures ok ==> index in manifest.parts && manifest == RecordedManifest(config, old(manifest), index, partFiles[index].bytes, now)
      ensures reliable ==> ok
    {
      hide Leads, Recovers;
      Tick();
      RecordingAllowed(config, Current(), index, now);
      ok := SaveManifest(RecordedManifest(config, manifest, index, partFiles[index].bytes, now));
    }

    /** The part of `m` at `index` is recorded as `body` and its file is in place. */
    ghost predicate StoredAs(m: Manifest, index: int, digest: Digest, body: seq<byte>)
      reads this
    {
      && 0 <= index < manifest.partCount && index !in m.parts
      && SameUpload(m, manifest) && manifest.state == m.state
      && manifest.parts == m.parts[index := PartRecord(|body|, DigestOf(body))]
      && manifest.updatedAt == now && manifest.expiresAt == now + config.inactivityTTL
      && index in partFiles && partFiles[index] == Regular(body)
      && IsPart(m, index, digest, body)
    }

    /** What an interrupted attempt left of this part can be replaced. */
    predicate LeftoversAreFiles(index: int)
      reads this
    {
      (index in partFiles ==> partFiles[index].Regular?) && (index in temporaries ==> temporaries[index].Regular?)
    }

    /** The parts recorded before keep their records and files. */
    ghost predicate OthersStay(parts: map<nat, PartRecord>, files: map<nat, Entry>)
      reads this
    {
      forall i :: i in parts ==>
        && i in manifest.parts && manifest.parts[i] == parts[i]
        && (i in files ==> i in partFiles && partFiles[i] == files[i])
    }

    /** Receives one part.  A recorded part is never written again: the same bytes are
        acknowledged, other bytes are a conflict. */
    method WritePart(index: int, digest: Digest, body: seq<byte>, slotFree: bool) returns (r: Result)
      requires Valid()
      modifies this
      ensures Valid() && Extended()
      ensures directory == old(directory)
      ensures r.Done? || manifest != old(manifest) ==>
                old(manifest.state) == Active && StoredAs(old(manifest), index, digest, body)
      ensures r.Replayed? ==> history == old(history) && manifest == old(manifest) && index in manifest.parts && manifest.parts[index].digest == digest
      ensures OthersStay(old(manifest.parts), old(partFiles))
      ensures r == Failed(PartConflict) ==> history == old(history) && index in manifest.parts && manifest.parts[index].digest != digest
      ensures old(Expired()) ==> r == Failed(UploadExpired)
      ensures old(!Expired() && manifest.state == Cancelled) ==> r == Failed(UploadCancelled)
      ensures old(!Expired() && manifest.state == Completed) ==> r == Failed(UploadConflict)
      ensures old(!Expired() && (manifest.state == Finalizing || (manifest.state == Active && !(0 <= index < manifest.partCount)))) ==>
                r == Failed(InvalidPart)
      ensures 0 <= index < old(manifest.partCount) && old(!Expired() && manifest.state == Active && index in manifest.parts) ==>
                r == if old(manifest.parts[index].digest) == digest then Replayed else Failed(PartConflict)
      ensures !slotFree && 0 <= index < old(manifest.partCount) && old(!Expired() && manifest.state == Active && index !in manifest.parts) ==>
                r == Failed(UploadBusy)
      ensures reliable && slotFree && 0 <= index < old(manifest.partCount) && index !in old(manifest.parts)
              && old(manifest.state == Active && !Expired()) ==>
                && (r.Done? <==> IsPart(old(manifest), index, digest, body) && old(LeftoversAreFiles(index)))
                && (old(LeftoversAreFiles(index)) ==>
                      && index !in temporaries && (!r.Done? ==> index !in partFiles)
                      && (!r.Done? ==> r == Failed(if |body| != ExpectedPartSize(LayoutOf(old(manifest)), index) then SizeMismatch else InvalidDigest)))
    {
      hide Leads, Recovers, Safe, ExpectedPartSize, ValidManifest, Recorded;
      assert OthersStay(manifest.parts, partFiles);
      hide StoredAs, OthersStay, IsPart, LeftoversAreFiles;
      if now >= manifest.expiresAt {
        return Failed(UploadExpired);
      }
      if manifest.state == Cancelled {
        return Failed(UploadCancelled);
      }
      if manifest.state == Completed {
        return Failed(UploadConflict);
      }
      if manifest.state != Active || index < 0 || index >= manifest.partCount {
        return Failed(InvalidPart);
      }
      PartSizeIsKnown(config, Current(), index);
      var expected := ExpectedPartSize(LayoutOf(manifest), index);
      if index in manifest.parts {
        assert manifest.parts[index].size == expected;
        return if manifest.parts[index].digest == digest then Replayed else Failed(PartConflict);
      }
      if !slotFree {
        return Failed(UploadBusy);
      }
      r := StorePart(index, digest, body, expected);
    }

    method StorePart(index: nat, digest: Digest, body: seq<byte>, expected: nat) returns (r: Result)
      requires Valid() && manifest.state == Active && index < manifest.partCount && index !in manifest.parts
      requires expected == ExpectedPartSize(LayoutOf(manifest), index)
      modifies this
      ensures Valid() && Extended()
      ensures directory == old(directory) && partFiles - {index} == old(partFiles) - {index}
      ensures r.Done? || manifest != old(manifest) ==> StoredAs(old(manifest), index, digest, body)
      ensures OthersStay(old(manifest.parts), old(partFiles))
      ensures r.Done? || (r.Failed? && r.error != PartConflict)
      ensures reliable ==> (r.Done? <==> IsPart(old(manifest), index, digest, body) && old(LeftoversAreFiles(index)))
      ensures reliable && old(LeftoversAreFiles(index)) ==> index !in temporaries && (!r.Done? ==> index !in partFiles)
      ensures reliable && old(LeftoversAreFiles(index)) && !r.Done? ==>
                r == Failed(if |body| != expected then SizeMismatch else InvalidDigest)
    {
      hide Leads, Recovers, Safe;
      r := Failed(IoError);
      var ok := ClearPart(index);
      if ok {
        r := ReceivePart(index, digest, body, expected);
      }
      if r.Done? {
        var fault := Fault();
        if !fault {
          ok := SaveRecorded(index);
        }
        r := if !fault && ok then Done else Failed(IoError);
      }
      OtherPartsStay(partFiles, old(partFiles), index);
    }
  }
}
