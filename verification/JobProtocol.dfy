/** Background jobs as interleaved atomic steps (job_manager.go, job_store.go, job_handlers.go,
    utils/copy_context.go).

    Submissions, cancellations, hiding, the worker's critical sections, the observer's journal
    entries, the worker's renames, shutdown, crashes and reloading are steps of one system.  A
    save of a job record may succeed, be lost, or take effect and still be reported as failed. */
module JobProtocol {
  import opened Basics

  /*** Jobs ***/

  datatype Kind = Copy | Compress | Extract

  datatype Source = Source(path: string, version: string)

  datatype Request = Request(
    kind: Kind,
    sources: seq<Source>,
    destination: string,
    name: string,
    target: string,
    previous: string)

  datatype State = Queued | Running | Succeeded | Failed | Partial | Cancelled | Interrupted

  predicate Terminal(state: State) {
    state != Queued && state != Running
  }

  datatype Job = Job(
    id: string,
    scope: string,
    key: string,
    request: Request,
    hidden: bool,
    state: State,
    published: seq<string>,
    intent: Option<string>,
    stages: seq<string>,
    cancelRequested: bool,
    created: nat,
    updated: nat)

  /** The last component of a path. */
  function Leaf(path: string): string {
    if path == "" || path[|path| - 1] == '/' then ""
    else Leaf(path[..|path| - 1]) + [path[|path| - 1]]
  }

  function Join(directory: string, leaf: string): string {
    if directory == "" then leaf else directory + "/" + leaf
  }

  function LeafFor(r: Request, source: Source): string {
    if r.name != "" then r.name
    else if r.kind == Compress then Leaf(source.path) + ".zip"
    else Leaf(source.path)
  }

  function OutputOf(r: Request, source: Source): string {
    Join(r.destination, LeafFor(r, source))
  }

  /** The outputs of a copy or compress job, in the order of its sources. */
  function PlannedOutputs(r: Request): seq<string> {
    seq(|r.sources|, i requires 0 <= i < |r.sources| => OutputOf(r, r.sources[i]))
  }

  /** `leaf` is the name given with the request, or else the last component of the source's path,
      with `.zip` when it is compressed. */
  ghost predicate IsLeafFor(r: Request, source: Source, leaf: string) {
    if r.name != "" then leaf == r.name
    else exists base :: IsLastComponent(source.path, base) && leaf == if r.kind == Compress then base + ".zip" else base
  }

  /** `path` is a new entry of the destination, under the name that the request asks for. */
  ghost predicate IsOutputFor(r: Request, source: Source, path: string) {
    exists leaf ::
      && IsLeafFor(r, source, leaf) && IsEntry(path, r.destination, leaf)
      && ('/' !in r.name ==> IsLastComponent(path, leaf))
  }

  lemma {:induction false} LeafIsLast(path: string)
    ensures IsLastComponent(path, Leaf(path)) && '/' !in Leaf(path)
  {
    if path == "" || path[|path| - 1] == '/' {
    } else {
      var rest := path[..|path| - 1];
      LeafIsLast(rest);
      OneMoreCharacter(path, Leaf(rest));
    }
  }

  lemma OneMoreCharacter(path: string, leaf: string)
    requires path != "" && path[|path| - 1] != '/' && IsLastComponent(path[..|path| - 1], leaf)
    ensures IsLastComponent(path, leaf + [path[|path| - 1]])
  {
    var rest, k := path[..|path| - 1], |path| - 1 - |leaf|;
    assert path[k..] == rest[k..] + [path[|path| - 1]];
    assert k > 0 ==> path[k - 1] == rest[k - 1];
  }

  lemma JoinIsEntry(directory: string, leaf: string)
    ensures IsEntry(Join(directory, leaf), directory, leaf)
    ensures '/' !in leaf ==> IsLastComponent(Join(directory, leaf), leaf)
  {
    if directory != "" {
      var path := directory + "/" + leaf;
      assert path[..|directory| + 1] == directory + "/" && path[|directory| + 1..] == leaf;
    }
  }

  lemma LeafIsRight(r: Request, source: Source)
    ensures IsLeafFor(r, source, LeafFor(r, source))
    ensures '/' !in r.name ==> '/' !in LeafFor(r, source)
  {
    hide Leaf, IsLastComponent;
    LeafIsLast(source.path);
    assert '/' !in ".zip";
  }

  /** Every output of a job lies directly in its destination, under the right name. */
  lemma OutputsAreEntries(r: Request, source: Source)
    ensures IsOutputFor(r, source, OutputOf(r, source))
  {
    hide LeafFor, IsLeafFor, Join, IsEntry, IsLastComponent;
    LeafIsRight(r, source);
    JoinIsEntry(r.destination, LeafFor(r, source));
  }

  /** The paths are the outputs for the sources, one for each and in their order. */
  ghost predicate AreOutputsFor(r: Request, paths: seq<string>) {
    |paths| == |r.sources| && forall i :: 0 <= i < |paths| ==> IsOutputFor(r, r.sources[i], paths[i])
  }

  lemma PlanIsOutputs(r: Request)
    ensures AreOutputsFor(r, PlannedOutputs(r))
  {
    forall i | 0 <= i < |r.sources|
      ensures IsOutputFor(r, r.sources[i], PlannedOutputs(r)[i])
    {
      OutputsAreEntries(r, r.sources[i]);
    }
  }

  predicate PlanFits(r: Request, plan: seq<string>) {
    r.kind != Extract ==> plan == PlannedOutputs(r)
  }

  /*** The system ***/

  /** How far the worker is with the next output. */
  datatype Phase = Idle | Intended | Renamed

  /** Whether the execution of the job still runs, and how it returned. */
  datatype Verdict = Going | Completed | Broke

  datatype Worker =
    | Loading   // the journal is being read after a start
    | Waiting   // at the select between the wake channel and shutdown
    | Choosing  // about to look for a queued job
    | Executing(id: string, plan: seq<string>, phase: Phase, verdict: Verdict, cancelled: bool)
    | Stopped

  /** `outputs` (what each job has renamed into place) and `restored` (the records that were
      unfinished when loaded) are history variables. */
  datatype System = System(
    memory: map<string, Job>,
    disk: map<string, Job>,
    outputs: map<string, set<string>>,
    restored: set<string>,
    wake: bool,
    stopping: bool,
    ready: bool,
    worker: Worker,
    now: nat)

  function Outputs(s: System, id: string): set<string> {
    if id in s.outputs then s.outputs[id] else {}
  }

  /** The fate of one save: stored, lost, or renamed into place but reported as failed. */
  datatype Save = Stored | Lost | Unsynced

  /** What a failed save makes of the record in memory. */
  function Broken(j: Job): Job {
    j.(state := if j.published != [] || j.intent.Some? then Partial else Interrupted)
  }

  function Persist(s: System, j: Job, save: Save): System {
    var saved := j.(updated := s.now);
    match save
    case Stored => s.(memory := s.memory[j.id := saved], disk := s.disk[j.id := saved])
    case Lost => s.(memory := s.memory[j.id := Broken(saved)], ready := false)
    case Unsynced => s.(memory := s.memory[j.id := Broken(saved)], disk := s.disk[j.id := saved], ready := false)
  }

  const MAX_ACTIVE := 64
  const MAX_OWNED := 16
  const MAX_RECORDS := 1000

  function Unfinished(m: map<string, Job>): set<string> {
    set id | id in m && !Terminal(m[id].state)
  }

  function Owned(m: map<string, Job>, scope: string): set<string> {
    set id | id in m && !Terminal(m[id].state) && m[id].scope == scope
  }

  predicate SameKey(a: Job, b: Job) {
    a.scope == b.scope && a.key == b.key
  }

  /*** Steps ***/

  datatype Step =
    | Submit(job: Job, save: Save)
    | Collect(id: string, synced: bool)
    | Cancel(id: string, save: Save)
    | Hide(id: string, save: Save)
    | Distrust
    | Stop
    | Wake
    | Sleep
    | Pick(id: string, plan: seq<string>, save: Save)
    | Stage(path: string, save: Save)
    | Clean(path: string, save: Save)
    | Intend(save: Save)
    | Rename
    | Publish(save: Save)
    | Abort
    | Return
    | Finish(interrupted: bool, audited: bool, save: Save)
    | Checkpoint(save: Save)
    | Interrupt(id: string, save: Save)
    | Halt
    | Tick(now: nat)
    | Crash
    | Load(id: string, save: Save)
    | Open

  predicate Fresh(s: System, j: Job) {
    && j.id !in s.memory && j.id !in s.disk && j.id !in s.outputs && j.id !in s.restored
    && j.state == Queued && j.published == [] && j.intent.None? && j.stages == [] && !j.hidden && !j.cancelRequested
    && j.created == s.now
  }

  /** A submission may name an earlier job only if that job is over and asked for the same. */
  predicate MayRetry(memory: map<string, Job>, scope: string, request: Request) {
    request.previous != "" ==>
      && request.previous in memory
      && var p := memory[request.previous];
         && !p.hidden && p.scope == scope && Terminal(p.state)
         && p.request.kind == request.kind && p.request.destination == request.destination
         && p.request.name == request.name && p.request.target == request.target
         && |p.request.sources| == |request.sources|
         && forall i :: 0 <= i < |request.sources| ==> p.request.sources[i].path == request.sources[i].path
  }

  /** The worker's job accepts journal entries. */
  predicate Observing(s: System) {
    s.worker.Executing? && s.worker.id in s.memory && s.ready && s.worker.verdict == Going
  }

  predicate Enabled(s: System, a: Step) {
    match a
    case Submit(j, _) =>
      && s.ready && !s.stopping && !s.worker.Loading?
      && Fresh(s, j)
      && (forall id :: id in s.memory ==> !SameKey(s.memory[id], j))
      && |Unfinished(s.memory)| < MAX_ACTIVE && |Owned(s.memory, j.scope)| < MAX_OWNED && |s.memory| < MAX_RECORDS
    case Collect(id, _) =>
      && s.ready && !s.stopping && !s.worker.Loading?
      && id in s.memory && Terminal(s.memory[id].state) && s.memory[id].intent.None? && s.memory[id].stages == []
      && s.now > s.memory[id].updated + 7 * 24 * 3600
    case Cancel(id, _) =>
      !s.worker.Loading? && id in s.memory && !s.memory[id].hidden && !Terminal(s.memory[id].state)
    case Hide(id, _) =>
      s.ready && !s.stopping && !s.worker.Loading? && id in s.memory && Terminal(s.memory[id].state) && !s.memory[id].hidden
    case Distrust => !s.worker.Loading?
    case Stop => !s.worker.Loading?
    case Wake => s.worker.Waiting? && s.wake
    case Sleep => s.worker.Choosing? && (s.stopping || forall id :: id in s.memory ==> s.memory[id].state != Queued)
    case Pick(id, plan, _) =>
      && s.worker.Choosing? && !s.stopping
      && id in s.memory && s.memory[id].state == Queued && PlanFits(s.memory[id].request, plan)
      && forall other :: other in s.memory && s.memory[other].state == Queued ==> s.memory[id].created <= s.memory[other].created
    case Stage(_, _) => Observing(s)
    case Clean(_, _) => s.worker.Executing? && s.worker.id in s.memory && s.ready
    case Intend(_) => Observing(s) && s.worker.phase == Idle && |s.memory[s.worker.id].published| < |s.worker.plan|
    case Rename => s.worker.Executing? && s.worker.id in s.memory && s.worker.verdict == Going && s.worker.phase == Intended
    case Publish(_) => Observing(s) && s.worker.phase == Renamed
    case Abort => s.worker.Executing? && s.worker.verdict == Going
    case Return =>
      && s.worker.Executing? && s.worker.id in s.memory && s.worker.verdict == Going && s.worker.phase == Idle
      && |s.memory[s.worker.id].published| == |s.worker.plan|
    case Finish(interrupted, _, _) =>
      && s.worker.Executing? && s.worker.id in s.memory && s.worker.verdict != Going
      && (interrupted ==> s.worker.cancelled || s.stopping)
    case Checkpoint(_) => Observing(s)
    case Interrupt(id, _) => s.worker.Waiting? && s.stopping && id in s.memory && !Terminal(s.memory[id].state)
    case Halt => s.worker.Waiting? && s.stopping && Unfinished(s.memory) == {}
    case Tick(later) => s.now <= later
    case Crash => true
    case Load(id, _) => s.worker.Loading? && id in s.disk && id !in s.memory && |s.memory| < MAX_RECORDS
    case Open => s.worker.Loading? && s.disk.Keys <= s.memory.Keys
  }

  /** The state the worker gives a job whose execution has returned.  `interrupted` says that
      the context of the execution was seen to be cancelled. */
  function FinalState(j: Job, verdict: Verdict, stopping: bool, interrupted: bool, audited: bool): (state: State)
    ensures Terminal(state)
  {
    if !audited then Partial
    else if verdict == Completed then Succeeded
    else if j.published != [] || j.intent.Some? then Partial
    else if stopping then Interrupted
    else if interrupted && j.cancelRequested then Cancelled
    else Failed
  }

  function RemoveStage(stages: seq<string>, path: string): seq<string> {
    if stages == [] then []
    else if stages[0] == path then stages[1..]
    else [stages[0]] + RemoveStage(stages[1..], path)
  }

  /** `after` is `stages` without the entry at `k`, the first that is this path. */
  predicate GoneAt(stages: seq<string>, path: string, k: nat, after: seq<string>) {
    k < |stages| && stages[k] == path && path !in stages[..k] && after == stages[..k] + stages[k + 1..]
  }

  lemma GoneFurtherOn(stages: seq<string>, path: string, k: nat, after: seq<string>)
    requires stages != [] && stages[0] != path && GoneAt(stages[1..], path, k, after)
    ensures GoneAt(stages, path, k + 1, [stages[0]] + after)
  {
    assert stages[..k + 1] == [stages[0]] + stages[1..][..k] && stages[k + 2..] == stages[1..][k + 1..];
  }

  /** At most one entry goes. */
  lemma {:induction false} OneStageIsGone(stages: seq<string>, path: string)
    ensures path !in stages ==> RemoveStage(stages, path) == stages
    ensures path in stages ==> exists k: nat :: GoneAt(stages, path, k, RemoveStage(stages, path))
  {
    hide GoneAt;
    if stages == [] {
    } else if stages[0] == path {
      FirstIsGone(stages);
      assert GoneAt(stages, path, 0, RemoveStage(stages, path));
    } else {
      OneStageIsGone(stages[1..], path);
      if path in stages[1..] {
        var k: nat :| GoneAt(stages[1..], path, k, RemoveStage(stages[1..], path));
        GoneFurtherOn(stages, path, k, RemoveStage(stages[1..], path));
        assert GoneAt(stages, path, k + 1, RemoveStage(stages, path));
      }
      assert path in stages ==> path in stages[1..];
    }
  }

  lemma FirstIsGone(stages: seq<string>)
    requires stages != []
    ensures GoneAt(stages, stages[0], 0, stages[1..])
  {
  }

  /** The steps that write a later version of one record. */
  predicate IsUpdate(a: Step) {
    a.Cancel? || a.Pick? || a.Stage? || a.Clean? || a.Intend? || a.Publish? || a.Checkpoint? || a.Finish? || a.Interrupt?
  }

  /** The version such a step writes. */
  function Version(s: System, a: Step): Job
    requires IsUpdate(a) && Enabled(s, a)
  {
    if a.Cancel? || a.Pick? || a.Interrupt? then
      var j := s.memory[a.id];
      match a
      case Pick(_, _, _) => j.(state := Running)
      case Interrupt(_, _) => j.(state := State.Interrupted)
      case _ => j.(cancelRequested := true, state := if j.state == Queued then State.Cancelled else j.state)
    else
      var j := s.memory[s.worker.id];
      match a
      case Stage(path, _) => j.(stages := j.stages + [path])
      case Clean(path, _) => j.(stages := RemoveStage(j.stages, path))
      case Intend(_) => j.(intent := Some(s.worker.plan[|j.published|]))
      case Publish(_) => j.(published := j.published + if j.intent.Some? then [j.intent.value] else [], intent := None)
      case Finish(interrupted, audited, _) =>
        j.(state := FinalState(j, s.worker.verdict, s.stopping, interrupted, audited))
      case _ => j
  }

  /** Where the worker is after such a step.  A journal entry that cannot be saved breaks off
      the execution. */
  function WorkerAfter(s: System, a: Step): Worker
    requires IsUpdate(a) && Enabled(s, a)
  {
    var verdict := if a.save != Stored then Broke else if s.worker.Executing? then s.worker.verdict else Going;
    match a
    case Cancel(id, _) => if s.worker.Executing? && s.worker.id == id then s.worker.(cancelled := true) else s.worker
    case Pick(id, plan, _) => Executing(id, plan, Idle, verdict, false)
    case Stage(_, _) => s.worker.(verdict := verdict)
    case Checkpoint(_) => s.worker.(verdict := verdict)
    case Intend(save) => s.worker.(phase := if save == Stored then Intended else Idle, verdict := verdict)
    case Publish(_) => s.worker.(phase := Idle, verdict := verdict)
    case Finish(_, _, _) => Choosing
    case _ => s.worker
  }

  /** Saves a record that is not in memory yet, and wakes the worker if it was stored. */
  function Add(s: System, j: Job, save: Save): (u: System)
    ensures u.worker == s.worker
  {
    match save
    case Stored => s.(memory := s.memory[j.id := j], disk := s.disk[j.id := j], wake := true)
    case Lost => s.(ready := false)
    case Unsynced => s.(disk := s.disk[j.id := j], ready := false)
  }

  /** Saves a copy of a record and puts it in place of the record only if it was stored. */
  function Replace(s: System, j: Job, save: Save): (u: System)
    ensures u.worker == s.worker
  {
    match save
    case Stored => s.(memory := s.memory[j.id := j], disk := s.disk[j.id := j])
    case Lost => s.(ready := false)
    case Unsynced => s.(disk := s.disk[j.id := j], ready := false)
  }

  /** What a restart makes of a record: unfinished work is never resumed. */
  function Loaded(s: System, id: string): Job
    requires id in s.disk
  {
    if Terminal(s.disk[id].state) then s.disk[id] else s.disk[id].(state := State.Interrupted, updated := s.now)
  }

  /** Reads one record; an unfinished one is saved as interrupted first. */
  function LoadRecord(s: System, id: string, save: Save): (u: System)
    requires id in s.disk
    ensures u.worker == s.worker
  {
    var j := Loaded(s, id);
    if Terminal(s.disk[id].state) then s.(memory := s.memory[id := j]) else
    match save
    case Stored => s.(memory := s.memory[id := j], disk := s.disk[id := j], restored := s.restored + {id})
    case Lost => s
    case Unsynced => s.(disk := s.disk[id := j], restored := s.restored + {id})
  }

  function Apply(s: System, a: Step): System
    requires Enabled(s, a)
  {
    if IsUpdate(a) then Persist(s, Version(s, a), a.save).(worker := WorkerAfter(s, a)) else
    match a
    case Submit(j, save) => Add(s, j.(updated := s.now), save)
    case Collect(id, synced) =>
      if synced then s.(memory := s.memory - {id}, disk := s.disk - {id})
      else s.(disk := s.disk - {id}, ready := false)
    case Hide(id, save) => Replace(s, s.memory[id].(hidden := true), save)
    case Distrust => s.(ready := false)
    case Stop => s.(stopping := true)
    case Wake => s.(wake := false, worker := Choosing)
    case Sleep => s.(worker := Waiting)
    case Rename =>
      var id := s.worker.id;
      var path := if s.memory[id].intent.Some? then {s.memory[id].intent.value} else {};
      s.(outputs := s.outputs[id := Outputs(s, id) + path], worker := s.worker.(phase := Renamed))
    case Abort => s.(worker := s.worker.(verdict := Broke))
    case Return => s.(worker := s.worker.(verdict := Completed))
    case Halt => s.(worker := Stopped)
    case Tick(later) => s.(now := later)
    case Crash => s.(memory := map[], wake := false, stopping := false, ready := false, worker := Loading)
    case Load(id, save) => LoadRecord(s, id, save)
    case Open => s.(worker := Waiting, ready := true)
  }

  predicate Legal(s: System, run: seq<Step>)
    decreases |run|
  {
    run == [] || (Enabled(s, run[0]) && Legal(Apply(s, run[0]), run[1..]))
  }

  function Replay(s: System, run: seq<Step>): System
    requires Legal(s, run)
    decreases |run|
  {
    if run == [] then s else Replay(Apply(s, run[0]), run[1..])
  }

  /** A state directory without job records. */
  predicate Initial(s: System) {
    s.memory == map[] && s.disk == map[] && s.outputs == map[] && s.restored == {} && s.worker == Loading
    && !s.wake && !s.stopping && !s.ready
  }
}
