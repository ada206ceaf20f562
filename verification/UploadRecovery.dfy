/** What recovery makes of any durable state (upload_store.go:262-330).

    Recovery is stated as a function of the durable state alone, so that it can be compared
    across crash points: recovering after a crash inside recovery settles in the same place. */
module UploadRecovery {
  import opened Basics
  import opened UploadParts
  import opened UploadProtocol

  datatype Verdict = Settle | Resume | Adopt | Refuse

  /** What recovery decides.  Only a finalizing upload needs a decision. */
  function VerdictOn(t: Transfer): Verdict {
    if t.manifest.state != Finalizing then Settle
    else if !ChecksumHolds(t) then Refuse
    else if t.manifest.name !in t.directory then Resume
    else if DestinationHolds(t, Content(t)) then Adopt
    else Refuse
  }

  /** A state up to what recovery may leave different from one attempt to the next: time
      stamps, unrecorded leftovers among the private files, and an orphaned stage. */
  datatype Outcome = Outcome(
    state: State,
    parts: map<nat, PartRecord>,
    partFiles: map<nat, Entry>,
    finalDigest: Option<Digest>,
    finalPath: Option<string>,
    directory: map<string, Entry>)

  function RecordedFiles(t: Transfer): map<nat, Entry> {
    map i | i in t.manifest.parts && i in t.partFiles :: t.partFiles[i]
  }

  /** Where recovery from `t` ends up. */
  function Final(t: Transfer): Outcome {
    var m := t.manifest;
    var directory := t.directory - {Stage(t)};
    match VerdictOn(t)
    case Settle =>
      var files := if Terminal(m.state) then map[] else RecordedFiles(t);
      Outcome(m.state, m.parts, files, m.finalDigest, m.finalPath, directory)
    case Resume => Outcome(Active, m.parts, RecordedFiles(t), None, None, directory)
    case Adopt => Outcome(Completed, map[], map[], Some(DigestOf(Content(t))), Some(FinalPathOf(m)), directory)
    case Refuse => Outcome(Finalizing, m.parts, RecordedFiles(t), m.finalDigest, m.finalPath, directory)
  }

  /** The disk steps recovery takes. */
  predicate RecoveryStep(c: Config, t: Transfer, s: Step) {
    && Enabled(c, t, s)
    && match VerdictOn(t)
       case Resume => s == Missing || s == DropStage || (s.Save? && s.next.state == Active)
       case Adopt => s == Confirm || (s.Save? && s.next.state == Completed)
       case Settle => Terminal(t.manifest.state) && (s.DropPart? || s.DropTemporary? || s == DropStage)
       case Refuse => false
  }

  predicate RecoveryRun(c: Config, t: Transfer, steps: seq<Step>)
    decreases |steps|
  {
    steps == [] || (RecoveryStep(c, t, steps[0]) && RecoveryRun(c, Apply(c, t, steps[0]), steps[1..]))
  }

  lemma SettledStepKeepsFinal(c: Config, t: Transfer, s: Step)
    requires Safe(c, t) && RecoveryStep(c, t, s) && VerdictOn(t) == Settle
    ensures Final(Apply(c, t, s)) == Final(t)
  {
    hide ValidManifest, Recorded, Content, ChecksumHolds;
    assert Apply(c, t, s).directory - {Stage(t)} == t.directory - {Stage(t)};
  }

  lemma ResumingStepKeepsFinal(c: Config, t: Transfer, s: Step)
    requires Safe(c, t) && RecoveryStep(c, t, s) && VerdictOn(t) == Resume
    ensures Final(Apply(c, t, s)) == Final(t)
  {
    hide Recorded, Assembled, IsStageName;
    var u := Apply(c, t, s);
    assert u.directory - {Stage(t)} == t.directory - {Stage(t)};
    assert RecordedFiles(u) == RecordedFiles(t);
  }

  lemma AdoptingStepKeepsFinal(c: Config, t: Transfer, s: Step)
    requires Safe(c, t) && RecoveryStep(c, t, s) && VerdictOn(t) == Adopt
    ensures Final(Apply(c, t, s)) == Final(t)
  {
    hide Recorded, Assembled, IsStageName;
  }

  lemma RecoveryStepKeepsFinal(c: Config, t: Transfer, s: Step)
    requires Safe(c, t) && RecoveryStep(c, t, s)
    ensures Final(Apply(c, t, s)) == Final(t)
  {
    hide Safe, Enabled, Apply, Final;
    match VerdictOn(t)
    case Settle => SettledStepKeepsFinal(c, t, s);
    case Resume => ResumingStepKeepsFinal(c, t, s);
    case Adopt => AdoptingStepKeepsFinal(c, t, s);
  }

  /** A crash anywhere inside recovery, and any number of further recoveries cut short, do not
      change where recovery ends up. */
  lemma {:induction false} RecoveryIsCrashInsensitive(c: Config, t: Transfer, steps: seq<Step>)
    requires Safe(c, t) && RecoveryRun(c, t, steps)
    ensures Legal(c, t, steps) && Undisturbed(steps)
    ensures Final(Replay(c, t, steps)) == Final(t)
    decreases |steps|
  {
    if steps == [] {
    } else {
      StepKeepsSafe(c, t, steps[0]);
      RecoveryStepKeepsFinal(c, t, steps[0]);
      RecoveryIsCrashInsensitive(c, Apply(c, t, steps[0]), steps[1..]);
    }
  }

  lemma {:induction false} RecoveryRunAppend(c: Config, t: Transfer, steps: seq<Step>, s: Step)
    requires RecoveryRun(c, t, steps) && Legal(c, t, steps) && RecoveryStep(c, Replay(c, t, steps), s)
    ensures RecoveryRun(c, t, steps + [s])
    decreases |steps|
  {
    if steps == [] {
      assert steps + [s] == [s];
    } else {
      RecoveryRunAppend(c, Apply(c, t, steps[0]), steps[1..], s);
      assert (steps + [s])[1..] == steps[1..] + [s];
    }
  }

  /** Crash-safe publication.  An active upload with a free destination name is run for any
      number of steps by any mix of completions, retries, part writes, cancels and recoveries,
      and crashes anywhere.  If no other program used the directory, then either
      the upload is still open and nothing was published, or what is published is exactly what
      the recorded parts assembled to, and the requested checksum matches it; and recovery refuses only when the requested checksum never matched. */
  lemma CrashSafePublication(c: Config, t: Transfer, steps: seq<Step>)
    requires Safe(c, t) && t.manifest.state == Active && t.manifest.name !in t.directory
    requires Legal(c, t, steps) && Undisturbed(steps)
    ensures
      var u := Replay(c, t, steps);
      && Safe(c, u)
      && (VerdictOn(u) == Refuse <==> u.manifest.state == Finalizing && !ChecksumHolds(u))
      && (Final(u).state == Active ==> u.manifest.name !in Final(u).directory && Recorded(Final(u).parts, Final(u).partFiles))
      && (Final(u).state == Completed ==> exists k: nat :: DeliveredFrom(c, t, steps, k))
      && SameElsewhere(t.directory, Final(u).directory, Stage(t), t.manifest.name)
  {
    hide Safe, Recorded, DeliveredFrom, VerdictOn, ChecksumHolds, Enabled, Apply, SameElsewhere;
    assert Stage(t) == StageName(t.manifest.id);
    var u := Replay(c, t, steps);
    UploadIsFixed(c, t, steps);
    assert Final(u).directory == u.directory - {Stage(t)};
    hide Final;
    RunStaysRecoverable(c, t, steps);
    OtherEntriesStay(c, t, steps);
    StageDoesNotMatter(t.directory, u.directory, Stage(t), t.manifest.name);
    if Final(u).state == Completed {
      DeliveredParts(c, t, steps);
    }
  }

  /** `v` has all its parts, they match the requested checksum, and `after` shows and records
      what they assemble to. */
  ghost predicate Delivers(v: Transfer, after: Outcome) {
    && v.manifest.state == Finalizing && FullyRecorded(v.manifest) && Recorded(v.manifest.parts, v.partFiles)
    && ChecksumHolds(v)
    && after.finalDigest == Some(DigestOf(Content(v)))
    && after.finalPath.Some? && IsEntry(after.finalPath.value, v.manifest.path, v.manifest.name)
    && IsLastComponent(after.finalPath.value, v.manifest.name)
    && v.manifest.name in after.directory && after.directory[v.manifest.name] == Regular(Content(v))
    && |Content(v)| == v.manifest.size
  }

  /** Recovery from the end of the run delivers what the parts were after `k` steps. */
  ghost predicate DeliveredFrom(c: Config, t: Transfer, steps: seq<Step>, k: nat)
    requires Legal(c, t, steps)
  {
    && k <= |steps|
    && Legal(c, t, steps[..k])
    && Delivers(Replay(c, t, steps[..k]), Final(Replay(c, t, steps)))
  }

  lemma StaysRecoverable(c: Config, u: Transfer)
    requires Safe(c, u) && Published(u)
    ensures VerdictOn(u) == Refuse <==> u.manifest.state == Finalizing && !ChecksumHolds(u)
    ensures Final(u).state == Active ==>
              u.manifest.name !in Final(u).directory && Recorded(Final(u).parts, Final(u).partFiles)
  {
    hide ValidManifest, Content, ChecksumHolds;
  }

  lemma RunStaysRecoverable(c: Config, t: Transfer, steps: seq<Step>)
    requires Safe(c, t) && t.manifest.state == Active && t.manifest.name !in t.directory
    requires Legal(c, t, steps) && Undisturbed(steps)
    ensures
      var u := Replay(c, t, steps);
      && Safe(c, u)
      && (VerdictOn(u) == Refuse <==> u.manifest.state == Finalizing && !ChecksumHolds(u))
      && (Final(u).state == Active ==> u.manifest.name !in Final(u).directory && Recorded(Final(u).parts, Final(u).partFiles))
  {
    hide Safe;
    UndisturbedRunKeepsPublished(c, t, steps);
    StaysRecoverable(c, Replay(c, t, steps));
  }

  lemma AdoptionDelivers(c: Config, u: Transfer)
    requires Safe(c, u) && VerdictOn(u) == Adopt
    ensures Delivers(u, Final(u))
  {
    hide Assembled, IsEntry, IsLastComponent;
    FinalPathIsEntry(u.manifest);
    ContentHasDeclaredSize(c, u);
    StageNameIsStageName(u.manifest.id);
  }

  lemma CompletionDelivers(c: Config, u: Transfer, v: Transfer)
    requires Safe(c, u) && CompletedAs(u, v, true) && SameUpload(v.manifest, u.manifest)
    requires v.manifest.state == Finalizing && FullyRecorded(v.manifest) && Recorded(v.manifest.parts, v.partFiles)
    ensures Delivers(v, Final(u))
  {
    hide Assembled, Recorded, IsEntry, IsLastComponent;
    StageNameIsStageName(u.manifest.id);
  }

  lemma DeliveredParts(c: Config, t: Transfer, steps: seq<Step>)
    requires Safe(c, t) && t.manifest.state == Active && t.manifest.name !in t.directory
    requires Legal(c, t, steps) && Undisturbed(steps)
    requires Final(Replay(c, t, steps)).state == Completed
    ensures exists k: nat :: DeliveredFrom(c, t, steps, k)
  {
    var u := Replay(c, t, steps);
    assert u.manifest.state == Completed || VerdictOn(u) == Adopt;
    assert Published(t);
    hide Safe, Recorded, Delivers, Published, Final, VerdictOn;
    RunKeepsSafe(c, t, steps);
    if u.manifest.state == Completed {
      CompletionIsExact(c, t, steps);
      var k: nat :| CompletedAt(c, t, steps, k);
      UploadIsFixed(c, t, steps);
      UploadIsFixed(c, t, steps[..k]);
      CompletionDelivers(c, u, Replay(c, t, steps[..k]));
      assert DeliveredFrom(c, t, steps, k);
    } else {
      AdoptionDelivers(c, u);
      assert steps[..|steps|] == steps;
      assert DeliveredFrom(c, t, steps, |steps|);
    }
  }

  /** Two directories differ at most under the stage name and the destination name. */
  ghost predicate SameElsewhere(a: map<string, Entry>, b: map<string, Entry>, stage: string, destination: string) {
    forall name :: name != stage && name != destination ==>
      && (name in b <==> name in a)
      && (name in a ==> b[name] == a[name])
  }

  lemma StageDoesNotMatter(a: map<string, Entry>, b: map<string, Entry>, stage: string, destination: string)
    requires SameElsewhere(a, b, stage, destination)
    ensures SameElsewhere(a, b - {stage}, stage, destination)
  {
  }

  lemma StepChangesNothingElse(c: Config, t: Transfer, s: Step)
    requires Enabled(c, t, s) && !s.Outside?
    ensures SameElsewhere(t.directory, Apply(c, t, s).directory, Stage(t), t.manifest.name)
    ensures Stage(Apply(c, t, s)) == Stage(t) && Apply(c, t, s).manifest.name == t.manifest.name
  {
  }

  lemma {:induction false} OtherEntriesStay(c: Config, t: Transfer, steps: seq<Step>)
    requires Legal(c, t, steps) && Undisturbed(steps)
    ensures SameElsewhere(t.directory, Replay(c, t, steps).directory, Stage(t), t.manifest.name)
    decreases |steps|
  {
    if steps == [] {
    } else {
      var u := Apply(c, t, steps[0]);
      StepChangesNothingElse(c, t, steps[0]);
      OtherEntriesStay(c, u, steps[1..]);
    }
  }

  /** With other programs at work recovery may also refuse a foreign destination, and then
      takes no step at all. */
  lemma RefusalTouchesNothing(c: Config, t: Transfer, steps: seq<Step>)
    requires Safe(c, t) && t.manifest.state == Finalizing && RecoveryRun(c, t, steps)
    ensures VerdictOn(t) == Refuse <==> !ChecksumHolds(t) || (t.manifest.name in t.directory && !DestinationHolds(t, Content(t)))
    ensures VerdictOn(t) == Refuse ==> Replay(c, t, steps) == t
  {
    RecoveryIsCrashInsensitive(c, t, steps);
  }

  /** What happens between the save of the intent and the comparison of the checksum: the stage
      is built, and other programs may interfere. */
  predicate WhileStaging(steps: seq<Step>) {
    forall k :: 0 <= k < |steps| ==>
      steps[k] == CreateStage || steps[k].AppendStage? || steps[k] == DropStage || steps[k].Outside?
  }

  lemma {:induction false} StagingKeepsUpload(c: Config, t: Transfer, steps: seq<Step>)
    requires Legal(c, t, steps) && WhileStaging(steps)
    ensures Replay(c, t, steps).manifest == t.manifest && Replay(c, t, steps).partFiles == t.partFiles
    decreases |steps|
  {
    if steps == [] {
    } else {
      hide SaveAllowed;
      StagingKeepsUpload(c, Apply(c, t, steps[0]), steps[1..]);
    }
  }

  lemma FinalizingIsLegal(c: Config, t: Transfer, now: nat)
    requires Safe(c, t) && t.manifest.state == Active && FullyRecorded(t.manifest)
    ensures Enabled(c, t, Save(FinalizingManifest(c, t.manifest, now)))
  {
    StageNameIsStageName(t.manifest.id);
  }

  /** The promise that a crashed completion can always be resumed or adopted fails for a wrong
      requested checksum: finalizing is made durable before the checksum is compared, and a
      crash anywhere in between leaves a state that recovery refuses. */
  lemma WrongChecksumCrashIsRefused(c: Config, t: Transfer, now: nat, staging: seq<Step>)
    requires Safe(c, t) && t.manifest.state == Active && FullyRecorded(t.manifest)
    requires WhileStaging(staging)
    ensures Enabled(c, t, Save(FinalizingManifest(c, t.manifest, now)))
    ensures
      var finalizing := Apply(c, t, Save(FinalizingManifest(c, t.manifest, now)));
      Legal(c, finalizing, staging) ==>
        var u := Replay(c, finalizing, staging);
        && (!ChecksumHolds(t) ==> VerdictOn(u) == Refuse)
        && (t.manifest.name !in u.directory ==> (VerdictOn(u) == Refuse <==> !ChecksumHolds(t)))
  {
    FinalizingIsLegal(c, t, now);
    var finalizing := Apply(c, t, Save(FinalizingManifest(c, t.manifest, now)));
    if Legal(c, finalizing, staging) {
      StagingKeepsUpload(c, finalizing, staging);
    }
  }

  /** An empty upload whose request named the digest of something else: complete, valid, and
      refused by every restart after a crash in the wrong place. */
  lemma WrongChecksumExample(c: Config, wrong: seq<byte>)
    requires ValidConfig(c) && wrong != []
    ensures
      var m := Manifest("0123456789abcdef", "", "file", 0, c.chunk, 1, Some(DigestOf(wrong)), map[0 := PartRecord(0, DigestOf([]))],
                        Active, 0, 0, None, None, None, None);
      var t := Transfer(m, map[0 := Regular([])], map[], map[], false);
      && Safe(c, t) && FullyRecorded(m)
      && Enabled(c, t, Save(FinalizingManifest(c, m, 1)))
      && VerdictOn(Apply(c, t, Save(FinalizingManifest(c, m, 1)))) == Refuse
  {
    var m := Manifest("0123456789abcdef", "", "file", 0, c.chunk, 1, Some(DigestOf(wrong)), map[0 := PartRecord(0, DigestOf([]))],
                      Active, 0, 0, None, None, None, None);
    var t := Transfer(m, map[0 := Regular([])], map[], map[], false);
    NothingIsAssembled(t);
    EmptyUploadIsSafe(c, m);
    hide Safe, Content, Apply, FinalizingManifest;
    assert !ChecksumHolds(t);
    WrongChecksumCrashIsRefused(c, t, 1, []);
  }

  lemma NothingIsAssembled(t: Transfer)
    requires t.manifest.partCount == 1 && t.partFiles == map[0 := Regular([])]
    ensures Content(t) == []
  {
    assert Assembled(t.partFiles, 1) == Assembled(t.partFiles, 0) + PartBytes(t.partFiles, 0);
  }

  lemma EmptyUploadIsSafe(c: Config, m: Manifest)
    requires ValidConfig(c)
    requires m == Manifest("0123456789abcdef", "", "file", 0, c.chunk, 1, m.expected, map[0 := PartRecord(0, DigestOf([]))],
                           Active, 0, 0, None, None, None, None)
    ensures Safe(c, Transfer(m, map[0 := Regular([])], map[], map[], false))
  {
    hide Assembled, IsStageName;
  }
}
