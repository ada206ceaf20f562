/** The durable state of one resumable upload and the atomic disk steps that may change it
    (upload_store.go, upload_publish.go).

    A step is one save, rename, link, create, write or remove.  A crash may follow any step,
    so whatever holds after every prefix of a legal run holds after every crash.  The class in
    UploadStore.dfy is proved to take only the steps that are enabled here; this module proves
    what every run of enabled steps keeps, and what recovery makes of any state reached. */
module UploadProtocol {
  import opened Basics
  import opened UploadParts

  /*** Durable state ***/

  /** A directory entry: a regular file, or anything else (a directory, a link, a device). */
  datatype Entry = Regular(bytes: seq<byte>) | Irregular

  datatype State = Active | Finalizing | Completed | Cancelled

  datatype Manifest = Manifest(
    id: string,
    path: string,
    name: string,
    size: nat,
    chunk: nat,
    partCount: nat,
    expected: Option<Digest>,
    parts: map<nat, PartRecord>,
    state: State,
    updatedAt: nat,
    expiresAt: nat,
    completedAt: Option<nat>,
    finalDigest: Option<Digest>,
    finalPath: Option<string>,
    stageName: Option<string>)

  /** `confirmed` is a history variable: the destination was linked, or was seen to hold the
      assembled parts, and has not since been seen to be missing. */
  datatype Transfer = Transfer(
    manifest: Manifest,
    partFiles: map<nat, Entry>,
    temporaries: map<nat, Entry>,
    directory: map<string, Entry>,
    confirmed: bool)

  datatype Config = Config(
    maxFileBytes: nat,
    chunk: nat,
    maxParts: nat,
    maxActive: nat,
    maxPendingBytes: nat,
    inactivityTTL: nat,
    completionTTL: nat)

  /** The limits config.go accepts, with the rounding sum of the largest file below 2^63. */
  predicate ValidConfig(c: Config) {
    && 0x10_0000 <= c.chunk <= 0x400_0000
    && 1 <= c.maxParts
    && 1 <= c.maxActive
    && c.maxFileBytes <= c.maxPendingBytes <= MAX_INT64
    && c.maxFileBytes + c.chunk - 1 <= MAX_INT64
  }

  /*** Manifests ***/

  const STAGE_PREFIX := ".fileharbor-upload-"
  const STAGE_SUFFIX := ".partial"

  function StageName(id: string): string {
    STAGE_PREFIX + id + STAGE_SUFFIX
  }

  predicate ValidId(id: string) {
    && 16 <= |id| <= 128
    && forall i :: 0 <= i < |id| ==>
         'a' <= id[i] <= 'z' || 'A' <= id[i] <= 'Z' || '0' <= id[i] <= '9' || id[i] == '-' || id[i] == '_'
  }

  predicate IsStageName(name: string) {
    && |STAGE_PREFIX| + |STAGE_SUFFIX| <= |name|
    && name[..|STAGE_PREFIX|] == STAGE_PREFIX
    && name[|name| - |STAGE_SUFFIX|..] == STAGE_SUFFIX
    && ValidId(name[|STAGE_PREFIX|..|name| - |STAGE_SUFFIX|])
  }

  /** Destination names cannot use the reserved prefix, so no destination is a stage. */
  predicate ValidName(name: string) {
    name != "" && '/' !in name && !(STAGE_PREFIX <= name)
  }

  function FinalPathOf(m: Manifest): string {
    if m.path == "" then m.name else m.path + "/" + m.name
  }

  /** The final path of an upload is the requested name in the requested directory. */
  lemma FinalPathIsEntry(m: Manifest)
    requires ValidName(m.name)
    ensures IsEntry(FinalPathOf(m), m.path, m.name) && IsLastComponent(FinalPathOf(m), m.name)
  {
    var path := FinalPathOf(m);
    if m.path != "" {
      assert path[..|m.path| + 1] == m.path + "/" && path[|m.path| + 1..] == m.name;
    }
  }

  function LayoutOf(m: Manifest): Layout {
    Layout(m.size, m.chunk, m.partCount)
  }

  predicate Terminal(state: State) {
    state == Completed || state == Cancelled
  }

  predicate ValidManifest(c: Config, m: Manifest) {
    && ValidId(m.id)
    && ValidName(m.name)
    && m.size <= c.maxFileBytes
    && m.chunk == c.chunk
    && m.partCount == PartCount(m.size, m.chunk)
    && 1 <= m.partCount <= c.maxParts
    && (match m.state
        case Active => m.stageName.None? && m.finalDigest.None? && m.finalPath.None? && m.completedAt.None?
        case Finalizing => m.stageName.Some? && IsStageName(m.stageName.value) && m.finalPath.None? && m.completedAt.None?
        case Cancelled => m.stageName.None? && m.finalDigest.None? && m.finalPath.None? && m.completedAt.None?
        case Completed => m.stageName.None? && m.finalPath.Some? && m.finalDigest.Some? && m.completedAt.Some? && |m.parts| == 0)
    && (!Terminal(m.state) ==> ValidParts(LayoutOf(m), m.parts))
  }

  lemma StageNameIsStageName(id: string)
    requires ValidId(id)
    ensures IsStageName(StageName(id))
    ensures forall name :: ValidName(name) ==> name != StageName(id)
  {
    var name := StageName(id);
    assert name[..|STAGE_PREFIX|] == STAGE_PREFIX;
    assert name[|name| - |STAGE_SUFFIX|..] == STAGE_SUFFIX;
    assert name[|STAGE_PREFIX|..|name| - |STAGE_SUFFIX|] == id;
    assert STAGE_PREFIX <= name;
  }

  /** What a request fixed when the upload was created. */
  predicate SameUpload(m: Manifest, n: Manifest) {
    n.id == m.id && n.path == m.path && n.name == m.name && n.size == m.size && n.chunk == m.chunk
    && n.partCount == m.partCount && n.expected == m.expected
  }

  /*** Assembled content ***/

  /** Every recorded part is a regular file with its recorded size and digest. */
  predicate Recorded(parts: map<nat, PartRecord>, files: map<nat, Entry>) {
    forall i :: i in parts ==>
      && i in files && files[i].Regular?
      && |files[i].bytes| == parts[i].size
      && DigestOf(files[i].bytes) == parts[i].digest
  }

  function PartBytes(files: map<nat, Entry>, index: nat): seq<byte> {
    if index in files && files[index].Regular? then files[index].bytes else []
  }

  /** The first `n` part files, one after the other. */
  function Assembled(files: map<nat, Entry>, n: nat): seq<byte> {
    if n == 0 then [] else Assembled(files, n - 1) + PartBytes(files, n - 1)
  }

  function Content(t: Transfer): seq<byte> {
    Assembled(t.partFiles, t.manifest.partCount)
  }

  /** Recorded parts are a complete set. */
  predicate FullyRecorded(m: Manifest) {
    |m.parts| == m.partCount
  }

  predicate ChecksumHolds(t: Transfer) {
    t.manifest.expected.Some? ==> t.manifest.expected.value == DigestOf(Content(t))
  }

  lemma {:induction false} AssembledLength(l: Layout, parts: map<nat, PartRecord>, files: map<nat, Entry>, n: nat)
    requires ValidParts(l, parts) && Recorded(parts, files)
    requires forall i :: 0 <= i < n ==> i in parts
    ensures |Assembled(files, n)| == ExpectedTotal(l, n)
  {
    if n == 0 {
    } else {
      AssembledLength(l, parts, files, n - 1);
    }
  }

  lemma {:induction false} AssembledAgrees(a: map<nat, Entry>, b: map<nat, Entry>, n: nat)
    requires forall i: nat :: i < n ==> PartBytes(a, i) == PartBytes(b, i)
    ensures Assembled(a, n) == Assembled(b, n)
  {
    if n == 0 {
    } else {
      AssembledAgrees(a, b, n - 1);
    }
  }

  /** A fully recorded upload assembles to exactly the declared number of bytes. */
  lemma ContentHasDeclaredSize(c: Config, t: Transfer)
    requires ValidConfig(c) && ValidManifest(c, t.manifest) && !Terminal(t.manifest.state)
    requires FullyRecorded(t.manifest) && Recorded(t.manifest.parts, t.partFiles)
    ensures t.manifest.parts.Keys == Indexes(t.manifest.partCount)
    ensures |Content(t)| == t.manifest.size
  {
    var m := t.manifest;
    assert |m.parts.Keys| == |m.parts|;
    AllRecorded(m.parts.Keys, m.partCount);
    AssembledLength(LayoutOf(m), m.parts, t.partFiles, m.partCount);
    ExpectedSizesSumToSize(LayoutOf(m));
  }

  /*** Steps ***/

  datatype Step =
    | WriteTemporary(index: nat, bytes: seq<byte>)
    | DropTemporary(index: nat)
    | PublishPart(index: nat)
    | DropPart(index: nat)
    | Save(next: Manifest)
    | CreateStage
    | AppendStage(bytes: seq<byte>)
    | DropStage
    | Link
    | Confirm   // the destination is seen to hold the assembled parts
    | Missing   // the destination is seen to be absent
    | Outside(changed: map<string, Entry>)  // another program changes the destination directory

  function Stage(t: Transfer): string {
    StageName(t.manifest.id)
  }

  predicate DestinationHolds(t: Transfer, bytes: seq<byte>) {
    t.manifest.name in t.directory && t.directory[t.manifest.name] == Regular(bytes)
  }

  /** The manifests that may replace the current one. */
  predicate SaveAllowed(c: Config, t: Transfer, next: Manifest) {
    var m := t.manifest;
    && ValidManifest(c, next)
    && SameUpload(m, next)
    && match (m.state, next.state)
       case (Active, Active) =>
         (forall i :: i in m.parts ==> i in next.parts && next.parts[i] == m.parts[i]) && Recorded(next.parts, t.partFiles)
       case (Active, Finalizing) =>
         next.parts == m.parts && FullyRecorded(m) && next.stageName == Some(Stage(t)) && next.finalDigest.None?
       case (Active, Cancelled) =>
         next.parts == m.parts
       case (Finalizing, Finalizing) =>
         next.parts == m.parts && next.stageName == m.stageName && next.finalDigest == Some(DigestOf(Content(t))) && ChecksumHolds(t)
       case (Finalizing, Active) =>
         next.parts == m.parts && Stage(t) !in t.directory && !t.confirmed
       case (Finalizing, Completed) =>
         t.confirmed && next.finalDigest == Some(DigestOf(Content(t))) && next.finalPath == Some(FinalPathOf(m))
       case _ => false
  }

  predicate Enabled(c: Config, t: Transfer, s: Step) {
    var m := t.manifest;
    match s
    case WriteTemporary(i, _) => m.state == Active
    case DropTemporary(i) => i in t.temporaries && (m.state == Active || Terminal(m.state))
    case PublishPart(i) => m.state == Active && i !in m.parts && i in t.temporaries && t.temporaries[i].Regular?
    case DropPart(i) => i in t.partFiles && ((m.state == Active && i !in m.parts) || Terminal(m.state))
    case Save(next) => SaveAllowed(c, t, next)
    case CreateStage => m.state == Finalizing && m.finalDigest.None? && Stage(t) !in t.directory
    case AppendStage(_) =>
      m.state == Finalizing && m.finalDigest.None? && Stage(t) in t.directory && t.directory[Stage(t)].Regular?
    case DropStage => (m.state == Finalizing || m.state == Completed) && Stage(t) in t.directory
    case Link =>
      && m.state == Finalizing && m.finalDigest == Some(DigestOf(Content(t))) && ChecksumHolds(t)
      && Stage(t) in t.directory && t.directory[Stage(t)] == Regular(Content(t))
      && m.name !in t.directory
    case Confirm => m.state == Finalizing && ChecksumHolds(t) && DestinationHolds(t, Content(t))
    case Missing => m.state == Finalizing && m.name !in t.directory
    case Outside(changed) =>
      && (Stage(t) in changed <==> Stage(t) in t.directory)
      && (Stage(t) in changed ==> changed[Stage(t)] == t.directory[Stage(t)])
  }

  function Apply(c: Config, t: Transfer, s: Step): Transfer
    requires Enabled(c, t, s)
  {
    match s
    case WriteTemporary(i, bytes) => t.(temporaries := t.temporaries[i := Regular(bytes)])
    case DropTemporary(i) => t.(temporaries := t.temporaries - {i})
    case PublishPart(i) => t.(partFiles := t.partFiles[i := t.temporaries[i]], temporaries := t.temporaries - {i})
    case DropPart(i) => t.(partFiles := t.partFiles - {i})
    case Save(next) => t.(manifest := next, confirmed := t.confirmed && next.state != Active)
    case CreateStage => t.(directory := t.directory[Stage(t) := Regular([])])
    case AppendStage(bytes) => t.(directory := t.directory[Stage(t) := Regular(t.directory[Stage(t)].bytes + bytes)])
    case DropStage => t.(directory := t.directory - {Stage(t)})
    case Link => t.(directory := t.directory[t.manifest.name := t.directory[Stage(t)]], confirmed := true)
    case Confirm => t.(confirmed := true)
    case Missing => t.(confirmed := false)
    case Outside(changed) => t.(directory := changed)
  }

  predicate Legal(c: Config, t: Transfer, steps: seq<Step>)
    decreases |steps|
  {
    steps == [] || (Enabled(c, t, steps[0]) && Legal(c, Apply(c, t, steps[0]), steps[1..]))
  }

  function Replay(c: Config, t: Transfer, steps: seq<Step>): Transfer
    requires Legal(c, t, steps)
    decreases |steps|
  {
    if steps == [] then t else Replay(c, Apply(c, t, steps[0]), steps[1..])
  }

  /** No other program touches the destination directory during the run. */
  predicate Undisturbed(steps: seq<Step>) {
    forall k :: 0 <= k < |steps| ==> !steps[k].Outside?
  }

  lemma {:induction false} LegalAppend(c: Config, t: Transfer, steps: seq<Step>, more: seq<Step>)
    requires Legal(c, t, steps) && Legal(c, Replay(c, t, steps), more)
    ensures Legal(c, t, steps + more)
    ensures Replay(c, t, steps + more) == Replay(c, Replay(c, t, steps), more)
    decreases |steps|
  {
    if steps == [] {
      assert steps + more == more;
    } else {
      var u := Apply(c, t, steps[0]);
      LegalAppend(c, u, steps[1..], more);
      assert (steps + more)[1..] == steps[1..] + more;
    }
  }

  /** Every prefix of a legal run is legal: a crash leaves the state after some prefix. */
  lemma {:induction false} LegalPrefix(c: Config, t: Transfer, steps: seq<Step>, k: nat)
    requires Legal(c, t, steps) && k <= |steps|
    ensures Legal(c, t, steps[..k])
    decreases k
  {
    if k == 0 {
    } else {
      LegalPrefix(c, Apply(c, t, steps[0]), steps[1..], k - 1);
      assert steps[..k][1..] == steps[1..][..k - 1];
    }
  }

  /*** The manifests an operation saves ***/

  function FinalizingManifest(c: Config, m: Manifest, now: nat): Manifest {
    m.(state := Finalizing, stageName := Some(StageName(m.id)), updatedAt := now, expiresAt := now + c.inactivityTTL)
  }

  function ActiveManifest(c: Config, m: Manifest, now: nat): Manifest {
    m.(state := Active, stageName := None, finalDigest := None, updatedAt := now, expiresAt := now + c.inactivityTTL)
  }

  function CancelledManifest(c: Config, m: Manifest, now: nat): Manifest {
    m.(state := Cancelled, stageName := None, finalDigest := None, updatedAt := now, expiresAt := now + c.completionTTL)
  }

  function RecordedManifest(c: Config, m: Manifest, index: nat, bytes: seq<byte>, now: nat): Manifest {
    m.(parts := m.parts[index := PartRecord(|bytes|, DigestOf(bytes))], updatedAt := now, expiresAt := now + c.inactivityTTL)
  }

  function CompletedManifest(c: Config, m: Manifest, digest: Digest, now: nat): Manifest {
    m.(state := Completed, finalPath := Some(FinalPathOf(m)), stageName := None, parts := map[], finalDigest := Some(digest),
       completedAt := Some(now), updatedAt := now, expiresAt := now + c.completionTTL)
  }

  /*** What every run keeps ***/

  ghost predicate Safe(c: Config, t: Transfer) {
    var m := t.manifest;
    && ValidConfig(c)
    && ValidManifest(c, m)
    && (!Terminal(m.state) ==> Recorded(m.parts, t.partFiles))
    && (m.state == Finalizing ==>
          && FullyRecorded(m)
          && m.stageName == Some(Stage(t))
          && (m.finalDigest.Some? ==> m.finalDigest.value == DigestOf(Content(t)) && ChecksumHolds(t)))
    && (m.state == Active || m.state == Cancelled ==> !t.confirmed)
    && (Stage(t) in t.directory ==> t.directory[Stage(t)].Regular?)
    && (t.confirmed && m.state == Finalizing ==> ChecksumHolds(t))
    && (m.state == Completed ==> t.confirmed && (m.expected.Some? ==> m.finalDigest == m.expected))
  }

  lemma SaveKeepsSafe(c: Config, t: Transfer, next: Manifest)
    requires Safe(c, t) && Enabled(c, t, Save(next))
    ensures Safe(c, Apply(c, t, Save(next)))
  {
    hide Assembled, IsStageName, ValidParts;
  }

  predicate OnPrivateFiles(s: Step) {
    s.WriteTemporary? || s.DropTemporary? || s.PublishPart? || s.DropPart?
  }

  lemma PrivateStepKeepsSafe(c: Config, t: Transfer, s: Step)
    requires Safe(c, t) && Enabled(c, t, s) && OnPrivateFiles(s)
    ensures Safe(c, Apply(c, t, s))
  {
    hide ValidManifest, Content, ChecksumHolds, SaveAllowed, StageName;
  }

  lemma DirectoryStepKeepsSafe(c: Config, t: Transfer, s: Step)
    requires Safe(c, t) && Enabled(c, t, s) && !OnPrivateFiles(s) && !s.Save?
    ensures Safe(c, Apply(c, t, s))
  {
    hide ValidManifest, Assembled, SaveAllowed, Recorded, StageName;
    NameIsNotStage(c, t);
  }

  lemma NameIsNotStage(c: Config, t: Transfer)
    requires Safe(c, t)
    ensures t.manifest.name != Stage(t)
  {
    StageNameIsStageName(t.manifest.id);
  }

  lemma StepKeepsSafe(c: Config, t: Transfer, s: Step)
    requires Safe(c, t) && Enabled(c, t, s)
    ensures Safe(c, Apply(c, t, s))
  {
    hide Safe, Enabled, Apply;
    if s.Save? {
      SaveKeepsSafe(c, t, s.next);
    } else if OnPrivateFiles(s) {
      PrivateStepKeepsSafe(c, t, s);
    } else {
      DirectoryStepKeepsSafe(c, t, s);
    }
  }

  /** Durable parts: after any run, and so after any crash, the invariant holds. */
  lemma {:induction false} RunKeepsSafe(c: Config, t: Transfer, steps: seq<Step>)
    requires Safe(c, t) && Legal(c, t, steps)
    ensures Safe(c, Replay(c, t, steps))
    decreases |steps|
  {
    if steps == [] {
    } else {
      StepKeepsSafe(c, t, steps[0]);
      RunKeepsSafe(c, Apply(c, t, steps[0]), steps[1..]);
    }
  }

  lemma RecordedPartIsThere(c: Config, t: Transfer, index: nat)
    requires Safe(c, t) && !Terminal(t.manifest.state) && index in t.manifest.parts
    ensures index in t.partFiles
  {
  }

  /** One step leaves a recorded part alone, unless it ends the upload. */
  lemma StepKeepsPart(c: Config, t: Transfer, s: Step, index: nat)
    requires Safe(c, t) && Enabled(c, t, s)
    requires !Terminal(t.manifest.state) && index in t.manifest.parts
    ensures
      var u := Apply(c, t, s);
      && index in t.partFiles
      && (!Terminal(u.manifest.state) ==>
            && index in u.manifest.parts
            && u.manifest.parts[index] == t.manifest.parts[index]
            && index in u.partFiles && u.partFiles[index] == t.partFiles[index])
  {
    hide ValidManifest, Content, IsStageName;
  }

  /** A recorded part keeps its record and its file for as long as the upload is not over. */
  lemma {:induction false} RecordedPartsAreFrozen(c: Config, t: Transfer, steps: seq<Step>, index: nat)
    requires Safe(c, t) && Legal(c, t, steps)
    requires !Terminal(t.manifest.state) && index in t.manifest.parts
    ensures
      var u := Replay(c, t, steps);
      !Terminal(u.manifest.state) ==>
        && index in u.manifest.parts
        && u.manifest.parts[index] == t.manifest.parts[index]
        && index in t.partFiles
        && index in u.partFiles && u.partFiles[index] == t.partFiles[index]
    decreases |steps|
  {
    hide Enabled, Apply, Safe;
    if steps == [] {
      RecordedPartIsThere(c, t, index);
    } else {
      var u := Apply(c, t, steps[0]);
      StepKeepsSafe(c, t, steps[0]);
      StepKeepsPart(c, t, steps[0], index);
      if Terminal(u.manifest.state) {
        TerminalIsAbsorbing(c, u, steps[1..]);
      } else {
        RecordedPartsAreFrozen(c, u, steps[1..], index);
      }
    }
  }

  /** Completed and cancelled manifests never change again. */
  lemma {:induction false} TerminalIsAbsorbing(c: Config, t: Transfer, steps: seq<Step>)
    requires Legal(c, t, steps) && Terminal(t.manifest.state)
    ensures Replay(c, t, steps).manifest == t.manifest
    decreases |steps|
  {
    if steps == [] {
    } else {
      TerminalIsAbsorbing(c, Apply(c, t, steps[0]), steps[1..]);
    }
  }

  lemma {:induction false} UploadIsFixed(c: Config, t: Transfer, steps: seq<Step>)
    requires Legal(c, t, steps)
    ensures SameUpload(t.manifest, Replay(c, t, steps).manifest)
    decreases |steps|
  {
    if steps == [] {
    } else {
      UploadIsFixed(c, Apply(c, t, steps[0]), steps[1..]);
    }
  }

  /** Once all parts are recorded, what the upload assembles to is settled: no retry, crash or
      recovery before its end changes a byte. */
  lemma ContentIsFrozen(c: Config, t: Transfer, steps: seq<Step>)
    requires Safe(c, t) && Legal(c, t, steps)
    requires !Terminal(t.manifest.state) && FullyRecorded(t.manifest)
    requires !Terminal(Replay(c, t, steps).manifest.state)
    ensures Content(Replay(c, t, steps)) == Content(t)
    ensures FullyRecorded(Replay(c, t, steps).manifest)
  {
    var u := Replay(c, t, steps);
    RunKeepsSafe(c, t, steps);
    UploadIsFixed(c, t, steps);
    ContentHasDeclaredSize(c, t);
    forall i: nat | i < t.manifest.partCount
      ensures PartBytes(t.partFiles, i) == PartBytes(u.partFiles, i) && i in u.manifest.parts
    {
      assert i in t.manifest.parts.Keys;
      RecordedPartsAreFrozen(c, t, steps, i);
    }
    AssembledAgrees(t.partFiles, u.partFiles, t.manifest.partCount);
    assert |u.manifest.parts.Keys| == |u.manifest.parts|;
    AllRecorded(u.manifest.parts.Keys, u.manifest.partCount);
    assert u.manifest.parts.Keys == Indexes(u.manifest.partCount);
  }

  /*** The destination directory ***/

  /** Only the stage and the destination may differ, and the destination only by appearing
      with exactly the assembled parts. */
  ghost predicate OnlyPublished(t: Transfer, u: Transfer, content: seq<byte>) {
    forall name :: name != Stage(t) ==>
      && (name in t.directory ==> name in u.directory && u.directory[name] == t.directory[name])
      && (name in u.directory && name !in t.directory ==> name == t.manifest.name && u.directory[name] == Regular(content))
  }

  /** No step of the store alters or removes an entry that already existed. */
  lemma StepOnlyPublishes(c: Config, t: Transfer, s: Step)
    requires Safe(c, t) && Enabled(c, t, s) && !s.Outside?
    ensures OnlyPublished(t, Apply(c, t, s), Content(t))
  {
    StageNameIsStageName(t.manifest.id);
  }

  /** The destination holds what was published, for as long as nobody else removes it. */
  ghost predicate Published(t: Transfer) {
    && (t.manifest.state == Finalizing && t.confirmed ==> DestinationHolds(t, Content(t)))
    && (t.manifest.state == Completed ==>
          exists bytes :: DestinationHolds(t, bytes) && t.manifest.finalDigest == Some(DigestOf(bytes)) && |bytes| == t.manifest.size)
    && (t.manifest.name in t.directory ==> t.confirmed)
  }

  lemma StepKeepsPublished(c: Config, t: Transfer, s: Step)
    requires Safe(c, t) && Enabled(c, t, s) && !s.Outside? && Published(t)
    ensures Published(Apply(c, t, s))
  {
    var u := Apply(c, t, s);
    StageNameIsStageName(t.manifest.id);
    if t.manifest.state == Completed {
      var bytes :| DestinationHolds(t, bytes) && t.manifest.finalDigest == Some(DigestOf(bytes)) && |bytes| == t.manifest.size;
      assert DestinationHolds(u, bytes);
    } else if u.manifest.state == Completed {
      ContentHasDeclaredSize(c, t);
      assert DestinationHolds(u, Content(t));
    }
  }

  /** What `u` records and, if `visible`, shows is the content of `v`, which the requested
      checksum matched. */
  ghost predicate CompletedAs(u: Transfer, v: Transfer, visible: bool) {
    && u.manifest.state == Completed
    && u.manifest.finalDigest == Some(DigestOf(Content(v)))
    && u.manifest.finalPath == Some(FinalPathOf(v.manifest))
    && IsEntry(u.manifest.finalPath.value, u.manifest.path, u.manifest.name)
    && IsLastComponent(u.manifest.finalPath.value, u.manifest.name)
    && ChecksumHolds(v)
    && |Content(v)| == u.manifest.size
    && (visible ==> DestinationHolds(u, Content(v)))
  }

  /** After `k` steps all parts were recorded, and the run completed the upload as their content. */
  ghost predicate CompletedAt(c: Config, t: Transfer, steps: seq<Step>, k: nat)
    requires Legal(c, t, steps)
  {
    && k <= |steps|
    && Legal(c, t, steps[..k])
    && var v := Replay(c, t, steps[..k]);
    && v.manifest.state == Finalizing && FullyRecorded(v.manifest) && Recorded(v.manifest.parts, v.partFiles)
    && CompletedAs(Replay(c, t, steps), v, Undisturbed(steps) && Published(t))
  }

  /** The step that completes an upload records the content it has then. */
  lemma CompletingStepIsExact(c: Config, t: Transfer, s: Step)
    requires Safe(c, t) && Enabled(c, t, s)
    requires !Terminal(t.manifest.state) && Apply(c, t, s).manifest.state == Completed
    ensures t.manifest.state == Finalizing && FullyRecorded(t.manifest) && Recorded(t.manifest.parts, t.partFiles)
    ensures CompletedAs(Apply(c, t, s), t, Published(t))
  {
    hide IsEntry, IsLastComponent;
    FinalPathIsEntry(t.manifest);
    ContentHasDeclaredSize(c, t);
  }

  /** A run can complete an upload only as the content of all its recorded parts. */
  lemma {:induction false} CompletionIsExact(c: Config, t: Transfer, steps: seq<Step>)
    requires Safe(c, t) && Legal(c, t, steps)
    requires !Terminal(t.manifest.state) && Replay(c, t, steps).manifest.state == Completed
    ensures exists k: nat :: CompletedAt(c, t, steps, k)
    decreases |steps|
  {
    hide Enabled, Apply, Safe, Recorded, Published, IsEntry, IsLastComponent;
    var s, rest := steps[0], steps[1..];
    var u := Apply(c, t, s);
    StepKeepsSafe(c, t, s);
    if u.manifest.state == Completed {
      CompletingStepIsExact(c, t, s);
      TerminalIsAbsorbing(c, u, rest);
      if Undisturbed(steps) && Published(t) {
        CompletedDestinationStays(c, u, rest, Content(t));
      }
      assert steps[..0] == [];
      assert CompletedAt(c, t, steps, 0);
    } else {
      if Terminal(u.manifest.state) {
        TerminalIsAbsorbing(c, u, rest);
      }
      if Undisturbed(steps) && Published(t) {
        StepKeepsPublished(c, t, s);
      }
      CompletionIsExact(c, u, rest);
      var k: nat :| CompletedAt(c, u, rest, k);
      assert steps[..k + 1][1..] == rest[..k];
      assert CompletedAt(c, t, steps, k + 1);
    }
  }

  /** Once all parts are recorded, an upload can only be completed as what they assemble to then,
      and only when the requested checksum matches that. */
  lemma CompletionDeliversParts(c: Config, t: Transfer, steps: seq<Step>)
    requires Safe(c, t) && Legal(c, t, steps)
    requires !Terminal(t.manifest.state) && FullyRecorded(t.manifest)
    requires Replay(c, t, steps).manifest.state == Completed
    ensures CompletedAs(Replay(c, t, steps), t, Undisturbed(steps) && Published(t))
  {
    hide Safe, Recorded, Published, IsEntry, IsLastComponent;
    CompletionIsExact(c, t, steps);
    var k: nat :| CompletedAt(c, t, steps, k);
    ContentIsFrozen(c, t, steps[..k]);
    UploadIsFixed(c, t, steps[..k]);
  }

  lemma {:induction false} UndisturbedRunKeepsPublished(c: Config, t: Transfer, steps: seq<Step>)
    requires Safe(c, t) && Legal(c, t, steps) && Undisturbed(steps) && Published(t)
    ensures Safe(c, Replay(c, t, steps)) && Published(Replay(c, t, steps))
    decreases |steps|
  {
    if steps == [] {
    } else {
      StepKeepsSafe(c, t, steps[0]);
      StepKeepsPublished(c, t, steps[0]);
      UndisturbedRunKeepsPublished(c, Apply(c, t, steps[0]), steps[1..]);
    }
  }

  /** A published upload is never taken back: while nobody removes the destination, it can be
      neither reopened nor cancelled. */
  lemma {:induction false} PublishedIsNotTakenBack(c: Config, t: Transfer, steps: seq<Step>)
    requires Safe(c, t) && Legal(c, t, steps) && Undisturbed(steps) && Published(t)
    requires t.manifest.state == Finalizing && t.confirmed
    ensures
      var u := Replay(c, t, steps);
      && u.confirmed
      && (u.manifest.state == Finalizing || u.manifest.state == Completed)
      && DestinationHolds(u, Content(t))
    decreases |steps|
  {
    if steps == [] {
    } else {
      var s := steps[0];
      var u := Apply(c, t, s);
      StageNameIsStageName(t.manifest.id);
      StepKeepsSafe(c, t, s);
      StepKeepsPublished(c, t, s);
      if u.manifest.state == Finalizing {
        PublishedIsNotTakenBack(c, u, steps[1..]);
      } else {
        assert u.manifest.state == Completed && DestinationHolds(u, Content(t));
        CompletedDestinationStays(c, u, steps[1..], Content(t));
      }
    }
  }

  lemma {:induction false} CompletedDestinationStays(c: Config, t: Transfer, steps: seq<Step>, bytes: seq<byte>)
    requires Safe(c, t) && Legal(c, t, steps) && Undisturbed(steps)
    requires t.manifest.state == Completed && DestinationHolds(t, bytes)
    ensures
      var u := Replay(c, t, steps);
      u.confirmed && u.manifest.state == Completed && DestinationHolds(u, bytes)
    decreases |steps|
  {
    if steps == [] {
    } else {
      StageNameIsStageName(t.manifest.id);
      StepKeepsSafe(c, t, steps[0]);
      CompletedDestinationStays(c, Apply(c, t, steps[0]), steps[1..], bytes);
    }
  }
}
