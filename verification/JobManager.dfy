/** The job manager: the critical sections that handlers and the worker run under its lock, the
    worker's execution of a job, and the reading of the journal at a start.

    Every save may be lost or reported as failed after taking effect.  The ghost run collects
    the steps taken; `Valid` says they are a legal run of the job system from an empty state
    directory, so the guarantees of JobGuarantees hold after every one of them. */
module JobManager {
  import opened Basics
  import opened JobProtocol
  import opened JobInvariants
  import opened JobGuarantees

  ghost predicate Leads(start: System, run: seq<Step>, s: System) {
    Initial(start) && Legal(start, run) && Replay(start, run) == s && Inv(s)
  }

  lemma {:induction false} RunAppend(s: System, run: seq<Step>, a: Step)
    requires Legal(s, run) && Enabled(Replay(s, run), a)
    ensures Legal(s, run + [a]) && Replay(s, run + [a]) == Apply(Replay(s, run), a)
    decreases |run|
  {
    hide Enabled, Apply;
    if run == [] {
      assert run + [a] == [a] && [a][1..] == [];
      assert Legal(Apply(s, a), []);
    } else {
      RunAppend(Apply(s, run[0]), run[1..], a);
      assert (run + [a])[1..] == run[1..] + [a];
    }
  }

  /** How many of `all` are not in `rest`. */
  function Counted(all: set<string>, rest: set<string>): nat {
    |all - rest|
  }

  lemma NoneCounted(m: map<string, Job>, scope: string)
    ensures Counted(Unfinished(m), m.Keys) == 0 && Counted(Owned(m, scope), m.Keys) == 0
    ensures Counted(Unfinished(m), {}) == |Unfinished(m)| && Counted(Owned(m, scope), {}) == |Owned(m, scope)|
  {
    assert Unfinished(m) - m.Keys == {} && Owned(m, scope) - m.Keys == {};
    assert Unfinished(m) - {} == Unfinished(m) && Owned(m, scope) - {} == Owned(m, scope);
  }

  lemma OneLess(all: set<string>, rest: set<string>, a: string)
    requires a in rest
    ensures Counted(all, rest - {a}) == Counted(all, rest) + if a in all then 1 else 0
  {
    if a in all {
      assert all - (rest - {a}) == all - rest + {a};
    } else {
      assert all - (rest - {a}) == all - rest;
    }
  }

  lemma OneCounted(m: map<string, Job>, scope: string, rest: set<string>, a: string)
    requires a in rest && a in m
    ensures Counted(Unfinished(m), rest - {a}) == Counted(Unfinished(m), rest) + if Terminal(m[a].state) then 0 else 1
    ensures Counted(Owned(m, scope), rest - {a}) ==
            Counted(Owned(m, scope), rest) + if Terminal(m[a].state) || m[a].scope != scope then 0 else 1
  {
    hide Counted;
    OneLess(Unfinished(m), rest, a);
    OneLess(Owned(m, scope), rest, a);
  }

  lemma StepLeads(start: System, run: seq<Step>, s: System, a: Step)
    requires Leads(start, run, s) && Enabled(s, a)
    ensures Leads(start, run + [a], Apply(s, a))
  {
    hide Inv, Enabled, Apply;
    RunAppend(start, run, a);
    StepKeepsInv(s, a);
  }

  /** One record is saved and the worker moves on, or breaks off. */
  function Written(s: System, j: Job, save: Save, next: Worker, broken: Worker): System {
    Persist(s, j, save).(worker := if save == Stored then next else broken)
  }

  lemma QueuedCancellation(s: System, id: string)
    requires Inv(s) && !s.worker.Loading? && id in s.memory && !s.memory[id].hidden && s.memory[id].state == Queued
    ensures s.memory[id].id == id && (s.worker.Executing? ==> s.worker.id in s.memory && s.worker.id != id)
    ensures forall save ::
              && Enabled(s, Step.Cancel(id, save))
              && Apply(s, Step.Cancel(id, save)) == Written(s, s.memory[id].(cancelRequested := true, state := State.Cancelled), save, s.worker, s.worker)
  {
    assert RecordOk(s, id, s.memory[id]);
    hide Records, UniqueKeys, Bounded, Agrees, Attentive, OneRunning, RecordOk, Persist;
  }

  lemma RunningCancellation(s: System, id: string)
    requires Inv(s) && !s.worker.Loading? && id in s.memory && !s.memory[id].hidden && s.memory[id].state == Running
    ensures s.memory[id].id == id && s.worker.Executing? && s.worker.id == id
    ensures forall save ::
              && Enabled(s, Step.Cancel(id, save))
              && Apply(s, Step.Cancel(id, save)) ==
                 Written(s, s.memory[id].(cancelRequested := true), save, s.worker.(cancelled := true), s.worker.(cancelled := true))
  {
    assert RecordOk(s, id, s.memory[id]);
    hide Records, UniqueKeys, Bounded, Agrees, Attentive, Executes, RecordOk;
  }

  /** The worker is where it was, except that it may have been asked to stop. */
  predicate SameProgress(w: Worker, m: map<string, Job>, v: Worker, n: map<string, Job>) {
    if w.Executing? then
      && v.Executing? && v.id == w.id && v.plan == w.plan && v.phase == w.phase && v.verdict == w.verdict
      && SameEvidence(m, n, w.id) && n[w.id].stages == m[w.id].stages
    else
      v == w
  }

  predicate SameEvidence(m: map<string, Job>, n: map<string, Job>, id: string) {
    && id in m && id in n
    && n[id].published == m[id].published && n[id].intent == m[id].intent && n[id].request == m[id].request
  }

  lemma SelfProgress(s: System)
    requires Inv(s)
    ensures SameProgress(s.worker, s.memory, s.worker, s.memory)
    ensures s.worker.Executing? ==> s.worker.id in s.memory && (s.ready ==> !Terminal(s.memory[s.worker.id].state))
  {
  }

  /*** What the worker's journal entries do ***/

  lemma StageApplies(s: System, path: string)
    requires Inv(s) && Observing(s)
    ensures s.memory[s.worker.id].id == s.worker.id
    ensures forall save ::
              && Enabled(s, Stage(path, save))
              && Apply(s, Stage(path, save)) ==
                 Written(s, s.memory[s.worker.id].(stages := s.memory[s.worker.id].stages + [path]), save, s.worker, s.worker.(verdict := Broke))
  {
    WorkersRecord(s);
    hide Inv, RecordOk, Persist;
  }

  lemma CleanApplies(s: System, path: string)
    requires Inv(s) && s.worker.Executing? && s.ready
    ensures s.worker.id in s.memory && s.memory[s.worker.id].id == s.worker.id
    ensures forall save ::
              && Enabled(s, Clean(path, save))
              && Apply(s, Clean(path, save)) ==
                 Written(s, s.memory[s.worker.id].(stages := RemoveStage(s.memory[s.worker.id].stages, path)), save, s.worker, s.worker)
  {
    WorkersRecord(s);
    hide Inv, RecordOk, Persist;
  }

  lemma IntendApplies(s: System)
    requires Inv(s) && Observing(s) && s.worker.phase == Idle && |s.memory[s.worker.id].published| < |s.worker.plan|
    ensures s.memory[s.worker.id].id == s.worker.id
    ensures forall save ::
              && Enabled(s, Intend(save))
              && Apply(s, Intend(save)) ==
                 Written(s, s.memory[s.worker.id].(intent := Some(s.worker.plan[|s.memory[s.worker.id].published|])), save,
                         s.worker.(phase := Intended), s.worker.(verdict := Broke))
  {
    WorkersRecord(s);
    hide Inv, RecordOk, Persist;
  }

  lemma PublishApplies(s: System)
    requires Inv(s) && Observing(s) && s.worker.phase == Renamed
    ensures s.memory[s.worker.id].id == s.worker.id
    ensures
      var j := s.memory[s.worker.id];
      && |j.published| < |s.worker.plan|
      && forall save ::
           && Enabled(s, Publish(save))
           && Apply(s, Publish(save)) ==
              Written(s, j.(published := j.published + [s.worker.plan[|j.published|]], intent := None), save,
                      s.worker.(phase := Idle), s.worker.(phase := Idle, verdict := Broke))
  {
    WorkersRecord(s);
    hide Records, UniqueKeys, Bounded, Agrees, Attentive, OneRunning, RecordOk, Persist;
  }

  lemma FinishApplies(s: System, interrupted: bool, audited: bool)
    requires Inv(s) && s.worker.Executing? && s.worker.verdict != Going && (interrupted ==> s.worker.cancelled || s.stopping)
    ensures s.worker.id in s.memory && s.memory[s.worker.id].id == s.worker.id
    ensures forall save ::
              && Enabled(s, Finish(interrupted, audited, save))
              && Apply(s, Finish(interrupted, audited, save)) ==
                 Written(s, s.memory[s.worker.id].(state := FinalState(s.memory[s.worker.id], s.worker.verdict, s.stopping, interrupted, audited)), save, Choosing, Choosing)
  {
    WorkersRecord(s);
    hide Inv, RecordOk, Persist;
    forall save: Save
      ensures Enabled(s, Finish(interrupted, audited, save))
      ensures Apply(s, Finish(interrupted, audited, save)) ==
              Written(s, s.memory[s.worker.id].(state := FinalState(s.memory[s.worker.id], s.worker.verdict, s.stopping, interrupted, audited)), save, Choosing, Choosing)
    {
      FinishApply(s, interrupted, audited, save);
    }
  }

  lemma FinishApply(s: System, interrupted: bool, audited: bool, save: Save)
    requires s.worker.Executing? && s.worker.id in s.memory && s.worker.verdict != Going && (interrupted ==> s.worker.cancelled || s.stopping)
    ensures Enabled(s, Finish(interrupted, audited, save))
    ensures Apply(s, Finish(interrupted, audited, save)) ==
            Written(s, s.memory[s.worker.id].(state := FinalState(s.memory[s.worker.id], s.worker.verdict, s.stopping, interrupted, audited)), save, Choosing, Choosing)
  {
    hide FinalState, Persist;
    assert Enabled(s, Finish(interrupted, audited, save));
    hide Enabled;
    FinishVersion(s, interrupted, audited, save);
    hide Version, WorkerAfter;
  }

  lemma FinalStateOf(j: Job, verdict: Verdict, stopping: bool, interrupted: bool, audited: bool)
    requires verdict != Going
    ensures EndedAs(j, FinalState(j, verdict, stopping, interrupted, audited), verdict == Completed, stopping, interrupted, audited)
    ensures forall state :: EndedAs(j, state, verdict == Completed, stopping, interrupted, audited) ==> Terminal(state)
    ensures Terminal(Partial) && Terminal(State.Interrupted)
  {
  }

  predicate HasEvidence(j: Job) {
    j.published != [] || j.intent.Some?
  }

  /** When each of the final states is given to a job whose execution has returned. */
  predicate EndedAs(j: Job, state: State, completed: bool, stopping: bool, interrupted: bool, audited: bool) {
    && Terminal(state)
    && (state == Succeeded <==> audited && completed)
    && (state == Partial <==> !audited || (!completed && HasEvidence(j)))
    && (state == State.Interrupted <==> audited && !completed && !HasEvidence(j) && stopping)
    && (state == State.Cancelled <==> audited && !completed && !HasEvidence(j) && !stopping && interrupted && j.cancelRequested)
  }

  lemma FinishVersion(s: System, interrupted: bool, audited: bool, save: Save)
    requires Enabled(s, Finish(interrupted, audited, save))
    ensures WorkerAfter(s, Finish(interrupted, audited, save)) == Choosing
    ensures Version(s, Finish(interrupted, audited, save)) ==
            s.memory[s.worker.id].(state := FinalState(s.memory[s.worker.id], s.worker.verdict, s.stopping, interrupted, audited))
  {
    hide FinalState;
  }

  lemma ReturnApplies(s: System)
    requires Inv(s) && Observing(s.(ready := true)) && s.worker.phase == Idle && |s.memory[s.worker.id].published| == |s.worker.plan|
    ensures s.memory[s.worker.id].published == s.worker.plan
    ensures Enabled(s, Return) && Apply(s, Return) == s.(worker := s.worker.(verdict := Completed))
  {
  }

  lemma PickApplies(s: System, id: string, plan: seq<string>)
    requires Inv(s) && Enabled(s, Pick(id, plan, Stored))
    ensures id in s.memory && s.memory[id].id == id && s.memory[id].published == []
    ensures forall save ::
              && Enabled(s, Pick(id, plan, save))
              && Apply(s, Pick(id, plan, save)) ==
                 Written(s, s.memory[id].(state := Running), save, Executing(id, plan, Idle, Going, false), Executing(id, plan, Idle, Broke, false))
  {
    assert RecordOk(s, id, s.memory[id]);
    hide Inv, Persist, RecordOk;
    forall save: Save
      ensures Enabled(s, Pick(id, plan, save))
      ensures Apply(s, Pick(id, plan, save)) ==
              Written(s, s.memory[id].(state := Running), save, Executing(id, plan, Idle, Going, false), Executing(id, plan, Idle, Broke, false))
    {
      PickApply(s, id, plan, save);
    }
  }

  lemma PickApply(s: System, id: string, plan: seq<string>, save: Save)
    requires Enabled(s, Pick(id, plan, Stored))
    ensures Enabled(s, Pick(id, plan, save))
    ensures Apply(s, Pick(id, plan, save)) ==
            Written(s, s.memory[id].(state := Running), save, Executing(id, plan, Idle, Going, false), Executing(id, plan, Idle, Broke, false))
  {
    hide Persist;
  }

  lemma InterruptApplies(s: System, id: string)
    requires Inv(s) && s.worker.Waiting? && s.stopping && id in s.memory && !Terminal(s.memory[id].state)
    ensures s.memory[id].id == id
    ensures forall save ::
              && Enabled(s, Interrupt(id, save))
              && Apply(s, Interrupt(id, save)) == Written(s, s.memory[id].(state := State.Interrupted), save, s.worker, s.worker)
  {
    hide UniqueKeys, Bounded, Agrees, Executes, OneRunning, Attentive, Journaled, Sound, Persist;
    assert RecordOk(s, id, s.memory[id]);
    forall save: Save
      ensures Enabled(s, Interrupt(id, save))
      ensures Apply(s, Interrupt(id, save)) == Written(s, s.memory[id].(state := State.Interrupted), save, s.worker, s.worker)
    {
      InterruptApply(s, id, save);
    }
  }

  lemma InterruptApply(s: System, id: string, save: Save)
    requires s.worker.Waiting? && s.stopping && id in s.memory && !Terminal(s.memory[id].state)
    ensures Enabled(s, Interrupt(id, save))
    ensures Apply(s, Interrupt(id, save)) == Written(s, s.memory[id].(state := State.Interrupted), save, s.worker, s.worker)
  {
    hide Persist;
  }

  lemma HideApplies(s: System, id: string)
    requires Inv(s) && s.ready && !s.stopping && !s.worker.Loading? && id in s.memory && Terminal(s.memory[id].state) && !s.memory[id].hidden
    ensures s.memory[id].id == id
    ensures forall save ::
              Enabled(s, Step.Hide(id, save)) && Apply(s, Step.Hide(id, save)) == Replace(s, s.memory[id].(hidden := true), save)
  {
    assert RecordOk(s, id, s.memory[id]);
    hide Inv, RecordOk, Replace;
  }

  lemma OpenApplies(s: System)
    requires Inv(s) && s.worker.Loading? && s.disk.Keys <= s.memory.Keys
    ensures s.memory == s.disk && Enabled(s, Open) && Apply(s, Open) == s.(worker := Waiting, ready := true)
  {
    hide Records, UniqueKeys, Bounded, Executes, OneRunning, Attentive;
  }

  lemma LoadApplies(s: System, id: string)
    requires s.worker.Loading? && id in s.disk && id !in s.memory && |s.memory| < MAX_RECORDS
    ensures forall save :: Enabled(s, Load(id, save)) && Apply(s, Load(id, save)) == LoadRecord(s, id, save)
  {
    hide LoadRecord;
  }

  lemma RenameApplies(s: System)
    requires s.worker.Executing? && s.worker.id in s.memory && s.worker.verdict == Going && s.worker.phase == Intended
    ensures Enabled(s, Step.Rename)
    ensures
      var id := s.worker.id;
      var path := if s.memory[id].intent.Some? then {s.memory[id].intent.value} else {};
      Apply(s, Step.Rename) == s.(outputs := s.outputs[id := Outputs(s, id) + path], worker := s.worker.(phase := Renamed))
  {
    hide Outputs;
  }

  lemma SubmissionApplies(s: System, j: Job)
    requires Enabled(s, Step.Submit(j, Stored)) && j.updated == s.now
    ensures forall save :: Enabled(s, Step.Submit(j, save)) && Apply(s, Step.Submit(j, save)) == Add(s, j, save)
  {
    hide Add, Fresh, Unfinished, Owned, SameKey;
  }

  lemma CrashApplies(s: System)
    ensures Enabled(s, Crash)
    ensures Apply(s, Crash) == s.(memory := map[], wake := false, stopping := false, ready := false, worker := Loading)
  {
  }

  lemma TickApplies(s: System, later: nat)
    requires s.now <= later
    ensures Enabled(s, Step.Tick(later)) && Apply(s, Step.Tick(later)) == s.(now := later)
  {
  }

  lemma ReadyAgrees(s: System)
    requires Inv(s) && s.ready
    ensures s.memory == s.disk
  {
    hide Records, UniqueKeys, Bounded, Executes, OneRunning, Attentive;
  }

  /** What the worker sets out to publish. */
  function PlanOf(r: Request, extracted: seq<string>): seq<string> {
    if r.kind == Extract then extracted else PlannedOutputs(r)
  }

  /** A copy or compress job has sources, and a new name only for a single one; no two outputs have
      the same path. */
  predicate CanPublish(r: Request, plan: seq<string>) {
    && (r.kind != Extract ==> |r.sources| >= 1 && (r.name != "" ==> |r.sources| == 1))
    && forall i, j :: 0 <= i < j < |plan| ==> plan[i] != plan[j]
  }

  lemma OneMoreIsNew(plan: seq<string>, n: nat)
    requires n < |plan| && forall i, j :: 0 <= i < j < n ==> plan[i] != plan[j]
    ensures (plan[n] !in plan[..n]) <==> forall i, j :: 0 <= i < j < n + 1 ==> plan[i] != plan[j]
    ensures plan[n] in plan[..n] ==> exists i, j :: 0 <= i < j < |plan| && plan[i] == plan[j]
    ensures plan[..n] + [plan[n]] == plan[..n + 1]
  {
    if plan[n] in plan[..n] {
      var i :| 0 <= i < n && plan[..n][i] == plan[n];
      assert plan[i] == plan[n];
    } else {
      assert forall i :: 0 <= i < n ==> plan[i] == plan[..n][i];
    }
  }

  /** An unfinished job is marked as interrupted, or as partial if that could not be saved and it has
      evidence; everything else about it stays. */
  predicate WasInterrupted(before: Job, after: Job, now: nat) {
    && after == before.(state := after.state, updated := now)
    && (after.state == State.Interrupted || (after.state == Partial && HasEvidence(before)))
  }

  /** What the end of the worker makes of a record. */
  predicate Settled(before: Job, after: Job, now: nat) {
    if Terminal(before.state) then after == before else WasInterrupted(before, after, now)
  }

  lemma SettledIsTerminal(now: nat)
    ensures forall before, after :: Settled(before, after, now) ==> Terminal(after.state)
    ensures forall before, after :: Settled(before, after, now) <==>
              if Terminal(before.state) then after == before else WasInterrupted(before, after, now)
  {
  }

  /** What a restart makes of a record. */
  predicate IsReloaded(before: Job, after: Job, now: nat) {
    if Terminal(before.state) then after == before
    else after == before.(state := State.Interrupted, updated := now)
  }

  datatype SubmitResult = Accepted(id: string) | Existing(id: string) | HiddenKey | KeyConflict | NotFound | Limit | Unavailable

  /** A finished record without evidence that was last updated longer ago than the retention. */
  predicate Collectable(jobs: map<string, Job>, now: nat, a: string) {
    a in jobs && Terminal(jobs[a].state) && jobs[a].intent.None? && jobs[a].stages == [] && now > jobs[a].updated + 7 * 24 * 3600
  }

  /** The records that a collection leaves. */
  function Kept(jobs: map<string, Job>, now: nat): set<string> {
    set a | a in jobs && !Collectable(jobs, now, a)
  }

  /** The quotas have room for one more job of this scope once expired records are collected. */
  predicate HasRoom(jobs: map<string, Job>, now: nat, scope: string) {
    |Unfinished(jobs)| < 64 && |Owned(jobs, scope)| < 16 && |Kept(jobs, now)| < 1000
  }

  /** A record answers to this idempotency key. */
  predicate AnswersTo(jobs: map<string, Job>, a: string, scope: string, key: string) {
    a in jobs && jobs[a].scope == scope && jobs[a].key == key
  }

  ghost predicate KeyTaken(jobs: map<string, Job>, scope: string, key: string) {
    exists a :: AnswersTo(jobs, a, scope, key)
  }

  /** What a submission is told about the record that has its key. */
  function Answer(j: Job, a: string, request: Request): SubmitResult {
    if j.hidden then HiddenKey else if j.request == request then Existing(a) else KeyConflict
  }

  lemma OneAnswers(s: System, a: string, b: string, scope: string, key: string)
    requires Inv(s) && AnswersTo(s.memory, a, scope, key) && AnswersTo(s.memory, b, scope, key)
    ensures a == b
  {
    hide Records, Bounded, Agrees, Executes, OneRunning, Attentive;
    assert KeyAt(s, a, scope, key) && KeyAt(s, b, scope, key);
  }

  lemma CollectableMeans(jobs: map<string, Job>, now: nat, a: string)
    requires a in jobs
    ensures Collectable(jobs, now, a) <==>
              && jobs[a].state != Queued && jobs[a].state != Running && jobs[a].intent.None? && jobs[a].stages == []
              && now > jobs[a].updated + 7 * 24 * 3600
  {
  }

  lemma CollectableIsThere(jobs: map<string, Job>, now: nat, a: string)
    ensures Collectable(jobs, now, a) ==> a in jobs
  {
  }

  lemma WasCollectable(before: map<string, Job>, jobs: map<string, Job>, now: nat, a: string)
    requires a in jobs && a in before && before[a] == jobs[a]
    ensures Collectable(jobs, now, a) <==> Collectable(before, now, a)
  {
  }

  lemma KeptWhenCollected(before: map<string, Job>, after: map<string, Job>, now: nat)
    requires forall a :: a in after ==> a in before
    requires forall a :: a in before && a !in after ==> Collectable(before, now, a)
    requires forall a :: Collectable(before, now, a) ==> a !in after
    ensures after.Keys == Kept(before, now)
  {
    hide Collectable;
  }

  /** Collecting takes no unfinished job, and leaves the records it is meant to leave. */
  lemma AfterCollection(before: map<string, Job>, after: map<string, Job>, now: nat, scope: string)
    requires forall a :: a in after ==> a in before && after[a] == before[a]
    requires forall a :: a in before && a !in after ==> Collectable(before, now, a)
    requires after.Keys == Kept(before, now)
    ensures Unfinished(after) == Unfinished(before) && Owned(after, scope) == Owned(before, scope)
    ensures forall a :: a in before && !Terminal(before[a].state) ==> a in after && after[a] == before[a]
    ensures HasRoom(before, now, scope) <==> |Unfinished(after)| < 64 && |Owned(after, scope)| < 16 && |after| < 1000
  {
    hide Kept;
    assert |after.Keys| == |after|;
  }

  class JobManager {
    var jobs: map<string, Job>
    var disk: map<string, Job>
    var wake: bool
    var stopping: bool
    var ready: bool
    var worker: Worker
    var now: nat
    var outputs: map<string, set<string>>
    var restored: set<string>
    /** Saves and renames succeed, the audit log works, and nobody stops the manager, makes it
        unready or cancels the job that runs. */
    const steady: bool
    ghost var start: System
    ghost var run: seq<Step>

    /** A fresh state directory. */
    constructor (steady: bool)
      ensures Valid() && worker.Loading? && jobs == map[] && disk == map[] && this.steady == steady
    {
      this.steady := steady;
      jobs, disk, outputs, restored := map[], map[], map[], {};
      wake, stopping, ready, worker, now := false, false, false, Loading, 0;
      start := System(map[], map[], map[], {}, false, false, false, Loading, 0);
      run := [];
      new;
      InitialInv(start);
    }

    ghost function Current(): System
      reads this
    {
      System(jobs, disk, outputs, restored, wake, stopping, ready, worker, now)
    }

    ghost predicate Valid()
      reads this
    {
      Leads(start, run, Current())
    }

    /** The step from `before` has just been carried out. */
    ghost method Note(before: System, a: Step)
      requires Leads(start, run, before) && Enabled(before, a) && Current() == Apply(before, a)
      modifies `run
      ensures Valid() && run == old(run) + [a]
    {
      hide Leads, Enabled, Apply;
      StepLeads(start, run, before, a);
      run := run + [a];
    }

    method Fault() returns (fault: bool)
      ensures steady ==> !fault
    {
      fault := *;
      fault := fault && !steady;
    }

    /** Nothing hinders the worker, and nothing will. */
    predicate Calm()
      reads this
    {
      steady && ready && !stopping && !(worker.Executing? && worker.cancelled)
    }

    /** The clock. */
    method Tick()
      requires Valid() && !worker.Loading?
      modifies this
      ensures Valid() && WorkerUndisturbed() && now >= old(now)
      ensures Current() == old(Current()).(now := now)
    {
      hide Inv, Enabled, Apply;
      SelfProgress(Current());
      ghost var before := Current();
      var later: nat :| later >= now;
      TickApplies(before, later);
      now := later;
      Note(before, Step.Tick(later));
    }

    method Fate() returns (save: Save)
      ensures steady ==> save == Stored
    {
      var lost := Fault();
      var unsynced := Fault();
      save := if lost then Lost else if unsynced then Unsynced else Stored;
    }

    /** Writes a record to disk.  A failed save makes the service unready and the record in
        memory final. */
    method PersistJob(j: Job) returns (save: Save)
      modifies `jobs, `disk, `ready
      ensures Current() == Persist(old(Current()), j, save)
      ensures j.id in jobs && jobs == old(jobs)[j.id := jobs[j.id]]
      ensures jobs[j.id] == j.(state := jobs[j.id].state, updated := now)
      ensures save == Stored ==> jobs[j.id].state == j.state && ready == old(ready)
      ensures disk == if save == Lost then old(disk) else old(disk)[j.id := j.(updated := now)]
      ensures steady ==> save == Stored
      ensures save != Stored ==> !ready && jobs[j.id].state == if HasEvidence(j) then Partial else State.Interrupted
    {
      save := Fate();
      var saved := j.(updated := now);
      if save != Lost {
        disk := disk[j.id := saved];
      }
      if save == Stored {
        jobs := jobs[j.id := saved];
      } else {
        ready := false;
        jobs := jobs[j.id := saved.(state := if HasEvidence(saved) then Partial else State.Interrupted)];
      }
    }

    /** Carries out a step that writes one record and moves the worker. */
    method Commit(j: Job, next: Worker, broken: Worker, ghost step: Save -> Step) returns (save: Save)
      requires Valid() && j.id in jobs
      requires forall save :: Enabled(Current(), step(save))
                 && Apply(Current(), step(save)) == Written(Current(), j, save, next, broken)
      modifies this
      ensures Valid() && stopping == old(stopping) && outputs == old(outputs) && now == old(now)
      ensures worker == if save == Stored then next else broken
      ensures j.id in jobs && jobs == old(jobs)[j.id := jobs[j.id]] && jobs[j.id] == j.(state := jobs[j.id].state, updated := now)
      ensures save == Stored ==> jobs[j.id].state == j.state && ready == old(ready)
      ensures disk == if save == Lost then old(disk) else old(disk)[j.id := j.(updated := now)]
      ensures steady ==> save == Stored
      ensures save != Stored ==> !ready && jobs[j.id].state == if HasEvidence(j) then Partial else State.Interrupted
    {
      hide Leads, Enabled, Apply, Persist;
      ghost var before := Current();
      save := PersistJob(j);
      worker := if save == Stored then next else broken;
      Note(before, step(save));
    }

    /*** Handlers ***/

    /** Runs a submission under the lock.  A key that is already taken is answered from its
        record, and never becomes a second job. */
    method Submit(id: string, scope: string, key: string, request: Request) returns (r: SubmitResult)
      requires Valid() && !worker.Loading?
      requires id !in jobs && id !in disk && id !in outputs && id !in restored
      modifies this
      ensures Valid() && WorkerUndisturbed()
      ensures worker == old(worker) && stopping == old(stopping) && now == old(now)
      ensures old(Calm()) ==> Calm()
      // A manager that is stopping or unready answers nothing.
      ensures old(stopping || !ready) ==> r == Unavailable && Current() == old(Current())
      ensures r == Unavailable && steady ==> old(stopping || !ready)
      // A taken key is answered by its record.
      ensures forall a :: old(ready && !stopping) && AnswersTo(old(jobs), a, scope, key) ==>
                r == Answer(old(jobs)[a], a, request) && Current() == old(Current())
      ensures r.Existing? || r == HiddenKey || r == KeyConflict ==> KeyTaken(old(jobs), scope, key)
      // With a free key, a request is refused as a retry exactly when it names an unfit earlier job.
      ensures r == NotFound ==> Current() == old(Current()) && request.previous != ""
      ensures old(ready && !stopping) && !KeyTaken(old(jobs), scope, key) ==> (r == NotFound <==> !MayRetry(old(jobs), scope, request))
      // Anything else is accepted if there is room.
      ensures r == Limit ==> !HasRoom(old(jobs), old(now), scope)
      ensures r.Accepted? ==> HasRoom(old(jobs), old(now), scope) && MayRetry(old(jobs), scope, request) && !KeyTaken(old(jobs), scope, key)
      ensures steady && old(ready && !stopping) && !KeyTaken(old(jobs), scope, key) && MayRetry(old(jobs), scope, request) ==>
                r == if HasRoom(old(jobs), old(now), scope) then Accepted(id) else Limit
      ensures r.Accepted? ==>
                && r.id == id && old(ready) && wake && id in jobs && id in disk && disk[id] == jobs[id]
                && jobs[id] == Job(id, scope, key, request, false, Queued, [], None, [], false, old(now), old(now))
      ensures !r.Accepted? ==> id !in jobs
      // Other records go only when they have expired.
      ensures forall a :: a in jobs && a != id ==> a in old(jobs) && jobs[a] == old(jobs)[a]
      ensures forall a :: a in old(jobs) && a !in jobs ==> Collectable(old(jobs), old(now), a)
      ensures forall a :: a in old(disk) && a !in disk ==> Collectable(old(jobs), old(now), a)
    {
      hide Inv, Enabled, Terminal;
      SelfProgress(Current());
      if stopping || !ready {
        return Unavailable;
      }
      var taken := FindKey(scope, key);
      if taken.Some? {
        forall a | AnswersTo(jobs, a, scope, key)
          ensures a == taken.value
        {
          OneAnswers(Current(), a, taken.value, scope, key);
        }
        assert AnswersTo(jobs, taken.value, scope, key);
        var existing := jobs[taken.value];
        return if existing.hidden then HiddenKey
               else if existing.request != request then KeyConflict
               else Existing(taken.value);
      }
      var j := Job(id, scope, key, request, false, Queued, [], None, [], false, now, now);
      var retry := CheckPrevious(j);
      if !retry {
        return NotFound;
      }
      hide MayRetry, HasRoom;
      r := Admit(j);
    }

    /** Collects expired records and accepts the job if the quotas allow it. */
    method Admit(j: Job) returns (r: SubmitResult)
      requires Valid() && ready && !stopping && !worker.Loading?
      requires Fresh(Current(), j) && j.updated == now
      requires forall a :: a in jobs ==> !SameKey(jobs[a], j)
      modifies this
      ensures Valid() && worker == old(worker) && stopping == old(stopping)
      ensures r == Accepted(j.id) || r == Limit || r == Unavailable
      ensures r.Accepted? ==> wake && j.id in jobs && jobs[j.id] == j && j.id in disk && disk[j.id] == j
      ensures steady ==> r != Unavailable && ready
      ensures forall a :: a in old(disk) && a !in disk ==> Collectable(old(jobs), old(now), a)
      ensures !r.Accepted? ==> j.id !in jobs
      ensures forall a :: a in jobs && a != j.id ==> a in old(jobs) && jobs[a] == old(jobs)[a]
      ensures forall a :: a in old(jobs) && a !in jobs ==> Collectable(old(jobs), old(now), a)
      ensures r != Unavailable ==> (r == Limit <==> !HasRoom(old(jobs), old(now), j.scope))
      ensures now == old(now)
    {
      hide Leads, Collectable, Kept, HasRoom, Unfinished, Owned;
      var active, owned := CountUnfinished(j.scope);
      var collected := CollectExpired();
      if !collected {
        return Unavailable;
      }
      AfterCollection(old(jobs), jobs, now, j.scope);
      if active >= MAX_ACTIVE || owned >= MAX_OWNED || |jobs| >= MAX_RECORDS {
        return Limit;
      }
      var save := Enqueue(j);
      return if save == Stored then Accepted(j.id) else Unavailable;
    }

    method FindKey(scope: string, key: string) returns (found: Option<string>)
      ensures found.Some? ==> found.value in jobs && jobs[found.value].scope == scope && jobs[found.value].key == key
      ensures found.None? ==> forall a :: a in jobs ==> !(jobs[a].scope == scope && jobs[a].key == key)
    {
      var rest := jobs.Keys;
      while rest != {}
        invariant rest <= jobs.Keys
        invariant forall a :: a in jobs && a !in rest ==> !(jobs[a].scope == scope && jobs[a].key == key)
        decreases rest
      {
        var a :| a in rest;
        if jobs[a].scope == scope && jobs[a].key == key {
          return Some(a);
        }
        rest := rest - {a};
      }
      return None;
    }

    method CheckPrevious(j: Job) returns (ok: bool)
      ensures ok <==> MayRetry(jobs, j.scope, j.request)
    {
      if j.request.previous == "" {
        return true;
      }
      if j.request.previous !in jobs {
        return false;
      }
      var p := jobs[j.request.previous];
      if p.hidden || p.scope != j.scope || !Terminal(p.state) || p.request.kind != j.request.kind
         || p.request.destination != j.request.destination || p.request.name != j.request.name
         || p.request.target != j.request.target || |p.request.sources| != |j.request.sources| {
        return false;
      }
      for i := 0 to |j.request.sources|
        invariant forall k :: 0 <= k < i ==> p.request.sources[k].path == j.request.sources[k].path
      {
        if p.request.sources[i].path != j.request.sources[i].path {
          return false;
        }
      }
      return true;
    }

    method CountUnfinished(scope: string) returns (active: nat, owned: nat)
      ensures active == |Unfinished(jobs)| && owned == |Owned(jobs, scope)|
    {
      hide Unfinished, Owned, Counted;
      NoneCounted(jobs, scope);
      active, owned := 0, 0;
      var rest := jobs.Keys;
      while rest != {}
        invariant rest <= jobs.Keys
        invariant active == Counted(Unfinished(jobs), rest) && owned == Counted(Owned(jobs, scope), rest)
        decreases rest
      {
        var a :| a in rest;
        OneCounted(jobs, scope, rest, a);
        if !Terminal(jobs[a].state) {
          active := active + 1;
          if jobs[a].scope == scope {
            owned := owned + 1;
          }
        }
        rest := rest - {a};
      }
    }

    /** Removes one expired record from disk and memory. */
    method CollectOne(a: string) returns (ok: bool)
      requires Valid() && ready && !stopping && !worker.Loading? && Collectable(jobs, now, a)
      modifies this
      ensures Valid() && worker == old(worker) && stopping == old(stopping) && now == old(now)
      ensures outputs == old(outputs) && restored == old(restored) && wake == old(wake)
      ensures ok ==> ready && jobs == old(jobs) - {a} && disk == old(disk) - {a}
      ensures !ok ==> jobs == old(jobs) && (disk == old(disk) || disk == old(disk) - {a})
      ensures steady ==> ok
    {
      hide Leads;
      ghost var before := Current();
      var kept := Fault();
      var unsynced := Fault();
      if kept {
        return false;
      }
      disk := disk - {a};
      if !unsynced {
        jobs := jobs - {a};
      } else {
        ready := false;
      }
      Note(before, Collect(a, !unsynced));
      return !unsynced;
    }

    /** Only expired records are gone. */
    twostate predicate OnlyCollected()
      reads this
    {
      && (forall a :: a in jobs ==> a in old(jobs) && jobs[a] == old(jobs)[a])
      && (forall a :: a in old(jobs) && a !in jobs ==> Collectable(old(jobs), old(now), a))
      && (forall a :: a in disk ==> a in old(disk) && disk[a] == old(disk)[a])
      && (forall a :: a in old(disk) && a !in disk ==> Collectable(old(jobs), old(now), a))
    }

    method CollectExpired() returns (ok: bool)
      requires Valid() && ready && !stopping && !worker.Loading?
      modifies this
      ensures Valid() && worker == old(worker) && stopping == old(stopping) && now == old(now)
      ensures outputs == old(outputs) && restored == old(restored) && wake == old(wake)
      ensures OnlyCollected() && (ok ==> ready) && (steady ==> ok)
      ensures ok ==> jobs.Keys == Kept(old(jobs), old(now))
    {
      hide Leads, Terminal, Collectable;
      var rest := jobs.Keys;
      while rest != {}
        invariant Valid() && worker == old(worker) && stopping == old(stopping) && now == old(now)
        invariant outputs == old(outputs) && restored == old(restored) && wake == old(wake)
        invariant OnlyCollected() && ready
        invariant forall a :: Collectable(old(jobs), now, a) ==> a !in jobs || a in rest
        invariant rest <= jobs.Keys
        decreases rest
      {
        var a :| a in rest;
        rest := rest - {a};
        CollectableIsThere(jobs, now, a);
        WasCollectable(old(jobs), jobs, now, a);
        var j := jobs[a];
        CollectableMeans(jobs, now, a);
        if j.state != Queued && j.state != Running && j.intent.None? && j.stages == [] && now > j.updated + 7 * 24 * 3600 {
          ok := CollectOne(a);
          if !ok {
            return false;
          }
        }
      }
      KeptWhenCollected(old(jobs), jobs, now);
      return true;
    }

    /** Saves the accepted job and, once it is durable, offers it to the worker. */
    method Enqueue(j: Job) returns (save: Save)
      requires Valid() && Enabled(Current(), Step.Submit(j, Stored)) && j.updated == now
      modifies this
      ensures Valid() && worker == old(worker) && stopping == old(stopping) && now == old(now)
      ensures save == Stored ==> jobs == old(jobs)[j.id := j] && wake && ready == old(ready)
      ensures disk == old(disk) || disk == old(disk)[j.id := j]
      ensures save == Stored ==> disk == old(disk)[j.id := j]
      ensures steady ==> save == Stored
      ensures save != Stored ==> jobs == old(jobs) && !ready
    {
      hide Leads, Enabled, Apply;
      ghost var before := Current();
      SubmissionApplies(before, j);
      save := Fate();
      if save != Lost {
        disk := disk[j.id := j];
      }
      if save == Stored {
        jobs := jobs[j.id := j];
        wake := true;
      } else {
        ready := false;
      }
      Note(before, Step.Submit(j, save));
    }

    /** The worker's job is where it was, except that it may have been asked to stop. */
    twostate predicate WorkerUndisturbed()
      reads this
    {
      SameProgress(old(worker), old(jobs), worker, jobs)
    }

    /** The cancel handler.  A queued job is over at once; a running one is asked to stop. */
    method Cancel(id: string, scope: string) returns (found: bool, save: Save)
      requires Valid() && !worker.Loading?
      modifies this
      ensures Valid() && WorkerUndisturbed()
      ensures found <==> old(id in jobs && !jobs[id].hidden && jobs[id].scope == scope)
      ensures !found || old(id in jobs && Terminal(jobs[id].state)) ==> Current() == old(Current())
      ensures found && old(jobs)[id].state == Queued ==> id in jobs && Terminal(jobs[id].state) && !(worker.Executing? && worker.id == id)
      ensures found && old(jobs)[id].state == Queued && save == Stored ==>
                id in jobs && jobs[id] == old(jobs)[id].(state := State.Cancelled, cancelRequested := true, updated := now)
      ensures found && old(jobs)[id].state == Running && save == Stored ==>
                id in jobs && jobs[id] == old(jobs)[id].(cancelRequested := true, updated := now)
      ensures found && !old(Terminal(jobs[id].state)) && save == Stored ==> id in disk && disk[id] == jobs[id]
      ensures (steady ==> save == Stored) && now == old(now)
      ensures jobs == old(jobs) || (id in jobs && jobs == old(jobs)[id := jobs[id]])
      ensures stopping == old(stopping) && (steady ==> ready == old(ready))
      ensures worker == old(worker) || (worker.Executing? && worker.id == id && worker.cancelled)
      ensures found && old(jobs)[id].state == Running ==> id in jobs && jobs[id].cancelRequested && worker.Executing? && worker.cancelled
    {
      hide Inv, Enabled, Apply, RecordOk;
      if worker.Executing? {
        WorkersRecord(Current());
      }
      save := Stored;
      if id !in jobs || jobs[id].hidden || jobs[id].scope != scope {
        return false, save;
      }
      found := true;
      if Terminal(jobs[id].state) {
        return;
      }
      if jobs[id].state == Queued {
        save := CancelQueued(id);
      } else {
        save := CancelRunning(id);
      }
    }

    method CancelQueued(id: string) returns (save: Save)
      requires Valid() && !worker.Loading? && id in jobs && !jobs[id].hidden && jobs[id].state == Queued
      modifies this
      ensures Valid() && worker == old(worker) && (worker.Executing? ==> worker.id in jobs && worker.id != id)
      ensures id in jobs && jobs == old(jobs)[id := jobs[id]] && Terminal(jobs[id].state)
      ensures save == Stored ==>
                jobs[id] == old(jobs)[id].(state := State.Cancelled, cancelRequested := true, updated := now) && id in disk && disk[id] == jobs[id]
      ensures now == old(now) && (steady ==> save == Stored)
      ensures stopping == old(stopping) && (steady ==> ready == old(ready))
    {
      hide Inv, Enabled, Apply, Written;
      QueuedCancellation(Current(), id);
      save := Commit(jobs[id].(cancelRequested := true, state := State.Cancelled), worker, worker, save => Step.Cancel(id, save));
    }

    method CancelRunning(id: string) returns (save: Save)
      requires Valid() && !worker.Loading? && id in jobs && !jobs[id].hidden && jobs[id].state == Running
      modifies this
      ensures Valid() && WorkerUndisturbed()
      ensures id in jobs && jobs[id].cancelRequested && worker.Executing? && worker.cancelled
      ensures jobs == old(jobs)[id := jobs[id]]
      ensures save == Stored ==>
                jobs[id] == old(jobs)[id].(cancelRequested := true, updated := now) && id in disk && disk[id] == jobs[id]
      ensures now == old(now) && (steady ==> save == Stored)
      ensures stopping == old(stopping) && worker.id == id && (steady ==> ready == old(ready))
    {
      hide Inv, Enabled, Apply, Written;
      RunningCancellation(Current(), id);
      var stopped := worker.(cancelled := true);
      save := Commit(jobs[id].(cancelRequested := true), stopped, stopped, save => Step.Cancel(id, save));
    }

    /** Hides a finished job.  The record in memory changes only when the copy is stored. */
    method Hide(id: string, scope: string) returns (ok: bool)
      requires Valid() && !worker.Loading?
      modifies this
      ensures Valid() && WorkerUndisturbed()
      ensures ok ==> id in jobs && jobs[id].hidden && Terminal(jobs[id].state) && jobs[id].scope == scope
      ensures ok ==> id in old(jobs) && jobs == old(jobs)[id := old(jobs)[id].(hidden := true)]
      ensures disk.Keys <= old(disk).Keys + {id} && forall a :: a in old(disk) && a != id ==> a in disk && disk[a] == old(disk)[a]
      ensures ok ==> id in disk && disk[id] == jobs[id]
      ensures worker == old(worker) && stopping == old(stopping) && (steady ==> ready == old(ready))
      ensures steady && old(!stopping && ready && id in jobs && jobs[id].scope == scope && Terminal(jobs[id].state)) ==> ok
      ensures !ok ==> jobs == old(jobs)
      ensures forall a :: a in jobs && a != id ==> a in old(jobs) && jobs[a] == old(jobs)[a]
    {
      hide Inv, Enabled, Apply, RecordOk;
      if worker.Executing? {
        WorkersRecord(Current());
      }
      if stopping || !ready || id !in jobs || jobs[id].scope != scope || !Terminal(jobs[id].state) {
        return false;
      }
      if jobs[id].hidden {
        ReadyAgrees(Current());
        return true;
      }
      ok := HideRecord(id);
    }

    method HideRecord(id: string) returns (ok: bool)
      requires Valid() && ready && !stopping && !worker.Loading? && id in jobs && Terminal(jobs[id].state) && !jobs[id].hidden
      modifies this
      ensures Valid() && worker == old(worker)
      ensures jobs == if ok then old(jobs)[id := old(jobs)[id].(hidden := true)] else old(jobs)
      ensures ok ==> id in disk && disk[id] == jobs[id]
      ensures stopping == old(stopping) && (steady ==> ready && ok)
      ensures disk == old(disk) || disk == old(disk)[id := old(jobs)[id].(hidden := true)]
    {
      hide Inv, Enabled, Apply;
      HideApplies(Current(), id);
      ghost var before := Current();
      var copy := jobs[id].(hidden := true);
      var save := Fate();
      if save != Lost {
        disk := disk[id := copy];
      }
      if save == Stored {
        jobs := jobs[id := copy];
      } else {
        ready := false;
      }
      assert Current() == Replace(before, copy, save);
      hide Replace;
      Note(before, Step.Hide(id, save));
      return save == Stored;
    }

    /** Cancels the context every execution derives from. */
    method StopRequested()
      requires Valid() && !worker.Loading?
      modifies this
      ensures Valid() && stopping && worker == old(worker) && jobs == old(jobs)
    {
      hide Leads;
      ghost var before := Current();
      stopping := true;
      Note(before, Step.Stop);
    }

    /*** The worker between jobs ***/

    method WakeUp()
      requires Valid() && worker.Waiting? && wake
      modifies this
      ensures Valid() && worker == Choosing && !wake && jobs == old(jobs)
    {
      hide Leads;
      ghost var before := Current();
      wake := false;
      worker := Choosing;
      Note(before, Step.Wake);
    }

    /** No queued job was created before this one. */
    predicate Oldest(id: string, rest: set<string>)
      reads this
    {
      && id in jobs && jobs[id].state == Queued
      && forall a :: a in jobs && a !in rest && jobs[a].state == Queued ==> jobs[id].created <= jobs[a].created
    }

    method OldestQueued() returns (oldest: Option<string>)
      ensures oldest.None? ==> forall a :: a in jobs ==> jobs[a].state != Queued
      ensures oldest.Some? ==> Oldest(oldest.value, {})
    {
      oldest := None;
      var rest := jobs.Keys;
      while rest != {}
        invariant rest <= jobs.Keys
        invariant oldest.None? ==> forall a :: a in jobs && a !in rest ==> jobs[a].state != Queued
        invariant oldest.Some? ==> Oldest(oldest.value, rest)
        decreases rest
      {
        var a :| a in rest;
        if jobs[a].state == Queued && (oldest.None? || jobs[a].created < jobs[oldest.value].created) {
          oldest := Some(a);
        }
        rest := rest - {a};
      }
    }

    method GoBackToWaiting()
      requires Valid() && Enabled(Current(), Sleep)
      modifies this
      ensures Valid() && worker == Waiting && jobs == old(jobs) && stopping == old(stopping)
    {
      hide Leads;
      ghost var before := Current();
      worker := Waiting;
      Note(before, Sleep);
    }

    method Start(id: string, plan: seq<string>)
      requires Valid() && Enabled(Current(), Pick(id, plan, Stored))
      modifies this
      ensures Valid()
      ensures exists verdict :: verdict != Completed && worker == Executing(id, plan, Idle, verdict, false)
      ensures worker.verdict != Going ==> !ready
      ensures old(Calm()) ==> Calm() && worker.verdict == Going
      ensures id in jobs && jobs == old(jobs)[id := jobs[id]] && jobs[id].published == []
      ensures jobs[id] == old(jobs)[id].(state := jobs[id].state, updated := now) && now == old(now)
      ensures old(Calm()) ==> jobs[id].state == Running
    {
      hide Inv, Enabled, Apply, Written;
      PickApplies(Current(), id, plan);
      var save := Commit(jobs[id].(state := Running), Executing(id, plan, Idle, Going, false),
                         Executing(id, plan, Idle, Broke, false), save => Pick(id, plan, save));
    }

    /** Starts the oldest queued job, or goes back to waiting.  What an extraction will publish
        is known only from the archive, `extracted`. */
    method ChooseNext(extracted: seq<string>) returns (picked: Option<string>)
      requires Valid() && worker.Choosing?
      modifies this
      ensures Valid()
      ensures picked.None? ==> worker == Waiting && jobs == old(jobs) && (stopping || forall a :: a in jobs ==> jobs[a].state != Queued)
      ensures picked.Some? ==> old(Oldest(picked.value, {})) && worker.Executing? && worker.id == picked.value && worker.phase == Idle && worker.verdict != Completed
      ensures picked.Some? ==> worker.plan == PlanOf(old(jobs)[picked.value].request, extracted)
      ensures picked.Some? ==> PlanFits(old(jobs)[picked.value].request, worker.plan) && picked.value in jobs && jobs[picked.value].published == []
      ensures picked.Some? ==> jobs[picked.value] == old(jobs)[picked.value].(state := jobs[picked.value].state, updated := now) && now == old(now)
      ensures picked.Some? && old(Calm()) ==> jobs[picked.value].state == Running
      ensures picked.Some? && worker.verdict != Going ==> !ready
      ensures picked.Some? && old(Calm()) ==> Calm() && worker.verdict == Going
      ensures picked.Some? ==> jobs == old(jobs)[picked.value := jobs[picked.value]]
    {
      hide Leads, Inv;
      picked := OldestQueued();
      if picked.None? || stopping {
        GoBackToWaiting();
        return None;
      }
      var id := picked.value;
      var plan := PlanOf(jobs[id].request, extracted);
      Start(id, plan);
    }

    /** Marks one unfinished job as interrupted. */
    method InterruptOne(id: string)
      requires Valid() && worker.Waiting? && stopping && id in jobs && !Terminal(jobs[id].state)
      modifies this
      ensures Valid() && worker == Waiting && stopping
      ensures id in jobs && jobs == old(jobs)[id := jobs[id]] && Terminal(jobs[id].state)
      ensures WasInterrupted(old(jobs)[id], jobs[id], now) && now == old(now)
    {
      hide Inv, Enabled, Apply, Written;
      InterruptApplies(Current(), id);
      var save := Commit(jobs[id].(state := State.Interrupted), worker, worker, save => Interrupt(id, save));
    }

    /** The worker's last act: nothing stays queued or running. */
    method Exit()
      requires Valid() && worker.Waiting? && stopping
      modifies this
      ensures Valid() && worker == Stopped && jobs.Keys == old(jobs).Keys
      ensures forall a :: a in jobs ==> Terminal(jobs[a].state)
      ensures forall a :: a in jobs ==> Settled(old(jobs)[a], jobs[a], now)
    {
      hide Leads, Inv, Settled, WasInterrupted;
      SettledIsTerminal(now);
      var rest := jobs.Keys;
      while rest != {}
        invariant Valid() && worker.Waiting? && stopping && jobs.Keys == old(jobs).Keys && rest <= jobs.Keys
        invariant now == old(now)
        invariant forall a :: a in rest ==> jobs[a] == old(jobs)[a]
        invariant forall a :: a in jobs && a !in rest ==> Settled(old(jobs)[a], jobs[a], now)
        decreases rest
      {
        var a :| a in rest;
        if !Terminal(jobs[a].state) {
          InterruptOne(a);
        }
        rest := rest - {a};
      }
      assert Unfinished(jobs) == {};
      StopWorker();
    }

    method StopWorker()
      requires Valid() && Enabled(Current(), Halt)
      modifies this
      ensures Valid() && worker == Stopped && jobs == old(jobs) && now == old(now)
    {
      hide Leads;
      ghost var before := Current();
      worker := Stopped;
      Note(before, Halt);
    }

    /** A request to stop is never taken back. */
    twostate predicate StillStopping()
      reads this
    {
      && (old(stopping) ==> stopping)
      && (old(worker.Executing? && worker.cancelled) ==> worker.Executing? && worker.cancelled)
    }

    /** Handlers run between any two critical sections of the worker. */
    method Others()
      requires Valid() && !worker.Loading?
      modifies this
      ensures Valid() && WorkerUndisturbed() && StillStopping()
      ensures old(Calm()) ==> Calm() && worker == old(worker)
    {
      hide Inv;
      SelfProgress(Current());
      var rounds: int := *;
      while rounds > 0
        invariant Valid() && !worker.Loading? && WorkerUndisturbed() && StillStopping()
        invariant old(Calm()) ==> Calm() && worker == old(worker)
      {
        OtherStep();
        rounds := rounds - 1;
      }
    }

    method OtherStep()
      requires Valid() && !worker.Loading?
      modifies this
      ensures Valid() && WorkerUndisturbed() && StillStopping()
      ensures old(Calm()) ==> Calm() && worker == old(worker)
    {
      hide Inv;
      SelfProgress(Current());
      var handler: int, id: string, scope: string := *, *, *;
      if handler == 0 {
        var key: string, request: Request := *, *;
        if id !in jobs && id !in disk && id !in outputs && id !in restored {
          var answer := Submit(id, scope, key, request);
        }
      } else if handler == 1 {
        var hidden := Hide(id, scope);
      } else if handler == 2 {
        Tick();
      } else if handler == 3 && !(steady && worker.Executing? && worker.id == id) {
        var found, save := Cancel(id, scope);
      } else if handler == 4 && !steady {
        StopRequested();
      } else if !steady {
        LoseTrust();
      }
    }

    /** Something else, such as the audit log, failed and made the service unready. */
    method LoseTrust()
      requires Valid() && !worker.Loading?
      modifies this
      ensures Valid() && WorkerUndisturbed() && !ready && worker == old(worker) && stopping == old(stopping)
    {
      hide Inv;
      SelfProgress(Current());
      ghost var before := Current();
      ready := false;
      Note(before, Distrust);
    }

    /*** The worker's execution of a job ***/

    /** The worker is still at its job, whose journal says what it said before. */
    twostate predicate StillAtJob()
      reads this
    {
      && worker.Executing? && old(worker.Executing?) && worker.id == old(worker.id) && worker.plan == old(worker.plan)
      && SameEvidence(old(jobs), jobs, worker.id)
    }

    /** The execution returns an error. */
    method Break()
      requires Valid() && worker.Executing? && worker.verdict == Going && worker.id in jobs
      modifies this
      ensures Valid() && StillAtJob() && worker.verdict == Broke
      ensures jobs[worker.id].stages == old(jobs)[worker.id].stages
      ensures old(Calm()) ==> Calm()
    {
      hide Leads;
      ghost var before := Current();
      worker := worker.(verdict := Broke);
      Note(before, Abort);
    }

    method ReturnDone()
      requires Valid() && worker.Executing? && worker.verdict == Going && worker.phase == Idle
      requires worker.id in jobs && |jobs[worker.id].published| == |worker.plan|
      modifies this
      ensures Valid() && StillAtJob() && worker.verdict == Completed && jobs[worker.id].published == worker.plan
      ensures old(Calm()) ==> Calm()
    {
      hide Inv, Enabled, Apply;
      ReturnApplies(Current());
      ghost var before := Current();
      worker := worker.(verdict := Completed);
      Note(before, Return);
    }

    /** The observer's entry for a new private stage. */
    method RecordStage(path: string)
      requires Valid() && worker.Executing? && worker.verdict == Going && worker.id in jobs
      modifies this
      ensures Valid() && StillAtJob() && worker.verdict != Completed && (worker.verdict == Going ==> worker.phase == old(worker.phase))
      ensures if old(ready) then jobs[worker.id].stages == old(jobs)[worker.id].stages + [path] else worker.verdict == Broke
      ensures old(Calm()) ==> Calm() && worker == old(worker)
    {
      if !ready {
        Break();
        return;
      }
      hide Inv, Enabled, Apply, Written;
      StageApplies(Current(), path);
      var j := jobs[worker.id];
      var save := Commit(j.(stages := j.stages + [path]), worker, worker.(verdict := Broke), save => Stage(path, save));
    }

    /** The observer's entry for a stage that is gone.  Its failure does not stop anything. */
    method RecordCleaned(path: string)
      requires Valid() && worker.Executing? && worker.id in jobs
      modifies this
      ensures Valid() && StillAtJob() && worker == old(worker)
      ensures old(ready) ==> jobs[worker.id].stages == RemoveStage(old(jobs)[worker.id].stages, path)
      ensures old(Calm()) ==> Calm()
    {
      if !ready {
        return;
      }
      hide Inv, Enabled, Apply, Written;
      CleanApplies(Current(), path);
      var j := jobs[worker.id];
      var save := Commit(j.(stages := RemoveStage(j.stages, path)), worker, worker, save => Clean(path, save));
    }

    /** The observer's entry before a rename. */
    method RecordIntent()
      requires Valid() && worker.Executing? && worker.verdict == Going && worker.phase == Idle
      requires worker.id in jobs && |jobs[worker.id].published| < |worker.plan|
      modifies this
      ensures Valid() && worker.Executing? && worker.id == old(worker.id) && worker.plan == old(worker.plan)
      ensures worker.id in jobs && jobs[worker.id].published == old(jobs[worker.id].published)
      ensures worker.verdict == Broke || (worker.verdict == Going && worker.phase == Intended)
      ensures worker.verdict == Going ==> jobs[worker.id].intent == Some(worker.plan[|jobs[worker.id].published|])
      ensures jobs[worker.id].request == old(jobs[worker.id].request)
      ensures jobs[worker.id].stages == old(jobs)[worker.id].stages
      ensures old(Calm()) ==> Calm() && worker.verdict == Going
    {
      if !ready {
        Break();
        return;
      }
      hide Inv, Enabled, Apply, Written;
      IntendApplies(Current());
      var j := jobs[worker.id];
      var save := Commit(j.(intent := Some(worker.plan[|j.published|])), worker.(phase := Intended), worker.(verdict := Broke), save => Intend(save));
    }

    /** The job has already put another output where it intends to put this one. */
    predicate TakenByItself()
      requires worker.Executing? && worker.id in jobs
      reads this
    {
      jobs[worker.id].intent.Some? && jobs[worker.id].intent.value in jobs[worker.id].published
    }

    /** Renames the output into place, unless something is there already. */
    method RenameOutput()
      requires Valid() && worker.Executing? && worker.verdict == Going && worker.phase == Intended && worker.id in jobs
      modifies this
      ensures Valid() && StillAtJob()
      ensures worker.verdict == Broke || (worker.verdict == Going && worker.phase == Renamed)
      ensures jobs[worker.id].stages == old(jobs)[worker.id].stages
      ensures worker.verdict == Going ==> !old(TakenByItself())
      ensures old(Calm()) ==> Calm() && (worker.verdict == Going <==> !old(TakenByItself()))
    {
      hide Leads;
      var refused := Fault();
      if refused || TakenByItself() {
        Break();
        return;
      }
      MoveOutput();
      var unsynced := Fault();
      if unsynced {
        Break();
      }
    }

    method MoveOutput()
      requires Valid() && worker.Executing? && worker.verdict == Going && worker.phase == Intended && worker.id in jobs
      modifies this
      ensures Valid() && StillAtJob() && worker.verdict == Going && worker.phase == Renamed
      ensures jobs[worker.id].stages == old(jobs)[worker.id].stages
      ensures worker == old(worker).(phase := Renamed) && ready == old(ready) && stopping == old(stopping)
    {
      hide Leads, Enabled, Apply;
      ghost var before := Current();
      RenameApplies(before);
      var id := worker.id;
      var visible := if id in outputs then outputs[id] else {};
      if jobs[id].intent.Some? {
        visible := visible + {jobs[id].intent.value};
      }
      assert visible == Outputs(before, id) + if jobs[id].intent.Some? then {jobs[id].intent.value} else {};
      outputs := outputs[id := visible];
      worker := worker.(phase := Renamed);
      Note(before, Step.Rename);
    }

    /** The observer's entry after the rename. */
    method RecordPublished()
      requires Valid() && worker.Executing? && worker.verdict == Going && worker.phase == Renamed && worker.id in jobs
      modifies this
      ensures Valid() && worker.Executing? && worker.id == old(worker.id) && worker.plan == old(worker.plan) && worker.id in jobs
      ensures worker.verdict == Broke
              || (worker.verdict == Going && worker.phase == Idle && OneMorePublished(old(jobs)[worker.id]))
      ensures jobs[worker.id].request == old(jobs)[worker.id].request
      ensures jobs[worker.id].stages == old(jobs)[worker.id].stages
      ensures old(Calm()) ==> Calm() && worker.verdict == Going
    {
      if !ready {
        Break();
        return;
      }
      hide Inv, Enabled, Apply, Written;
      PublishApplies(Current());
      var j := jobs[worker.id];
      var save := Commit(j.(published := j.published + [worker.plan[|j.published|]], intent := None), worker.(phase := Idle),
                         worker.(phase := Idle, verdict := Broke), save => Step.Publish(save));
    }

    /** The next output of the plan is published after those of `j`. */
    predicate OneMorePublished(j: Job)
      requires worker.Executing? && worker.id in jobs
      reads this
    {
      |j.published| < |worker.plan| && jobs[worker.id].published == j.published + [worker.plan[|j.published|]]
    }

    /** The next output of the plan has the path of an earlier one. */
    predicate NextIsTaken()
      requires worker.Executing? && worker.id in jobs && |jobs[worker.id].published| < |worker.plan|
      reads this
    {
      worker.plan[|jobs[worker.id].published|] in jobs[worker.id].published
    }

    /** Builds one output in a private stage and publishes it. */
    method PublishNext(stage: string, cleaned: bool)
      requires Valid() && worker.Executing? && worker.verdict == Going && worker.phase == Idle
      requires worker.id in jobs && |jobs[worker.id].published| < |worker.plan|
      modifies this
      ensures Valid() && worker.Executing? && worker.id == old(worker.id) && worker.plan == old(worker.plan) && worker.id in jobs
      ensures worker.verdict == Broke
              || (worker.verdict == Going && worker.phase == Idle && OneMorePublished(old(jobs)[worker.id]) && !old(NextIsTaken()))
      ensures jobs[worker.id].request == old(jobs)[worker.id].request
      ensures old(Calm()) ==> Calm() && (worker.verdict == Going <==> !old(NextIsTaken()))
      ensures old(Calm()) ==>
                var stages := old(jobs)[worker.id].stages + [stage];
                jobs[worker.id].stages == if cleaned then RemoveStage(stages, stage) else stages
      ensures old(worker.cancelled || stopping) ==> worker.verdict == Broke && SameEvidence(old(jobs), jobs, worker.id)
    {
      hide Leads;
      Others();
      var failed := Fault();
      if failed || worker.cancelled || stopping {
        Break();
        return;
      }
      PublishStaged(stage);
      Others();
      if cleaned {
        RecordCleaned(stage);
      }
    }

    /** From the journal entry for the stage to the one for the published output. */
    method PublishStaged(stage: string)
      requires Valid() && worker.Executing? && worker.verdict == Going && worker.phase == Idle
      requires worker.id in jobs && |jobs[worker.id].published| < |worker.plan|
      modifies this
      ensures Valid() && worker.Executing? && worker.id == old(worker.id) && worker.plan == old(worker.plan) && worker.id in jobs
      ensures worker.verdict == Broke
              || (worker.verdict == Going && worker.phase == Idle && OneMorePublished(old(jobs)[worker.id]) && !old(NextIsTaken()))
      ensures jobs[worker.id].request == old(jobs)[worker.id].request
      ensures old(Calm()) ==> Calm() && (worker.verdict == Going <==> !old(NextIsTaken()))
      ensures old(Calm()) ==> jobs[worker.id].stages == old(jobs)[worker.id].stages + [stage]
    {
      hide Leads;
      RecordStage(stage);
      if worker.verdict == Going {
        Others();
        if worker.cancelled || stopping {
          Break();
        } else {
          RecordIntent();
        }
      }
      if worker.verdict == Going {
        Others();
        RenameOutput();
      }
      if worker.verdict == Going {
        Others();
        RecordPublished();
      }
    }

    /** Publishes the outputs of the worker's job one after the other, while handlers run. */
    method Execute()
      requires Valid() && worker.Executing? && worker.phase == Idle && worker.verdict != Completed
      requires worker.id in jobs && jobs[worker.id].published == []
      modifies this
      ensures Valid() && worker.Executing? && worker.id == old(worker.id) && worker.plan == old(worker.plan)
      ensures worker.verdict != Going && worker.id in jobs
      ensures worker.verdict == Completed ==> jobs[worker.id].published == worker.plan
      ensures jobs[worker.id].request == old(jobs)[worker.id].request
      ensures worker.verdict == Completed ==> CanPublish(jobs[worker.id].request, worker.plan)
      ensures old(worker.cancelled || stopping) && worker.plan != [] ==> worker.verdict == Broke && jobs[worker.id].published == []
      ensures old(Calm() && worker.verdict == Going) ==>
                Calm() && (worker.verdict == Completed <==> CanPublish(jobs[worker.id].request, worker.plan))
    {
      hide Leads;
      var r := jobs[worker.id].request;
      if worker.verdict == Going && r.kind != Extract && (|r.sources| == 0 || (r.name != "" && |r.sources| != 1)) {
        Break();
        return;
      }
      var i := 0;
      var count := |worker.plan|;
      while i < count && worker.verdict == Going
        invariant Valid() && worker.Executing? && worker.id == old(worker.id) && worker.plan == old(worker.plan)
        invariant 0 <= i <= count == |worker.plan|
        invariant worker.id in jobs && worker.verdict != Completed
        invariant old(worker.cancelled || stopping) ==> jobs[worker.id].published == [] && (i > 0 ==> worker.verdict == Broke)
        invariant i == 0 ==> worker == old(worker) && jobs == old(jobs) && stopping == old(stopping)
        invariant jobs[worker.id].request == old(jobs)[worker.id].request
        invariant worker.verdict == Going ==> worker.phase == Idle && jobs[worker.id].published == worker.plan[..i]
        invariant worker.verdict == Going && r.kind != Extract ==> |r.sources| >= 1 && (r.name != "" ==> |r.sources| == 1)
        invariant worker.verdict == Going ==> forall k, l :: 0 <= k < l < i ==> worker.plan[k] != worker.plan[l]
        invariant old(Calm() && worker.verdict == Going) ==> Calm() && (worker.verdict == Broke ==> !CanPublish(r, worker.plan))
      {
        OneMoreIsNew(worker.plan, i);
        var stage: string, cleaned: bool := *, *;
        PublishNext(stage, cleaned);
        i := i + 1;
      }
      if worker.verdict == Going {
        ReturnDone();
      }
    }

    /** Records how the execution ended.  `interrupted` is what was seen of its context before the
        lock was taken; a cancellation that comes later is not seen. */
    method FinishJob(interrupted: bool, audited: bool) returns (save: Save)
      requires Valid() && worker.Executing? && worker.verdict != Going && worker.id in jobs
      requires interrupted ==> worker.cancelled || stopping
      modifies this
      ensures Valid() && worker == Choosing
      ensures old(worker.id) in jobs && jobs == old(jobs)[old(worker.id) := jobs[old(worker.id)]]
      ensures Terminal(jobs[old(worker.id)].state) && jobs[old(worker.id)].published == old(jobs[worker.id].published)
      ensures save == Stored ==> EndedAs(old(jobs[worker.id]), jobs[old(worker.id)].state, old(worker.verdict) == Completed,
                                         stopping, interrupted, audited)
      ensures save == Stored ==> ready == old(ready)
      ensures stopping == old(stopping) && (steady ==> save == Stored)
      ensures jobs[old(worker.id)] == old(jobs[worker.id]).(state := jobs[old(worker.id)].state, updated := now) && now == old(now)
      ensures save == Stored ==> old(worker.id) in disk && disk[old(worker.id)] == jobs[old(worker.id)]
      ensures save != Stored ==> !ready && jobs[old(worker.id)].state == if HasEvidence(old(jobs[worker.id])) then Partial else State.Interrupted
    {
      hide Inv, Enabled, Apply, Written, FinalState, Terminal, EndedAs;
      FinishApplies(Current(), interrupted, audited);
      FinalStateOf(jobs[worker.id], worker.verdict, stopping, interrupted, audited);
      var j := jobs[worker.id];
      var state := FinalState(j, worker.verdict, stopping, interrupted, audited);
      save := Commit(j.(state := state), Choosing, Choosing, save => Finish(interrupted, audited, save));
    }

    /** One round of the worker.  A job that ends as succeeded has published exactly its plan. */
    method WorkOnce(extracted: seq<string>) returns (done: Option<string>)
      requires Valid() && worker.Choosing?
      modifies this
      ensures Valid()
      ensures done.None? ==> worker == Waiting && (stopping || forall a :: a in jobs ==> jobs[a].state != Queued)
      ensures done.Some? ==> worker == Choosing && old(Oldest(done.value, {})) && done.value in jobs && Terminal(jobs[done.value].state)
      ensures done.Some? && jobs[done.value].state == Succeeded ==> PlanFits(old(jobs)[done.value].request, jobs[done.value].published)
      ensures done.Some? && jobs[done.value].state == Succeeded ==>
                if old(jobs)[done.value].request.kind == Extract then jobs[done.value].published == extracted
                else AreOutputsFor(old(jobs)[done.value].request, jobs[done.value].published)
      ensures done.Some? && old(Calm()) ==>
                && Calm()
                && (jobs[done.value].state == Succeeded <==>
                      CanPublish(old(jobs)[done.value].request, PlanOf(old(jobs)[done.value].request, extracted)))
    {
      hide Leads, Terminal, Oldest, CanPublish, AreOutputsFor;
      done := ChooseNext(extracted);
      if done.Some? {
        PlanIsOutputs(jobs[done.value].request);
        Execute();
        var interrupted := worker.cancelled || stopping;
        Others();
        var unaudited := Fault();
        var _ := FinishJob(interrupted, !unaudited);
      }
    }

    /*** Start and crash ***/

    /** The process ends between two steps; what is on disk stays. */
    method Die()
      requires Valid()
      modifies this
      ensures Valid() && worker.Loading? && jobs == map[] && disk == old(disk) && outputs == old(outputs)
    {
      hide Leads, Enabled, Apply;
      ghost var before := Current();
      CrashApplies(before);
      jobs, wake, stopping, ready, worker := map[], false, false, false, Loading;
      Note(before, Crash);
    }

    /** Reads the journal.  Unfinished work is marked as interrupted and never resumed; what it
        published or intended stays on record.  The limit on records is never met. */
    method LoadJobs() returns (ok: bool)
      requires Valid() && worker.Loading? && jobs == map[]
      modifies this
      ensures Valid() && outputs == old(outputs)
      ensures ok ==> worker == Waiting && ready && jobs == disk && jobs.Keys == old(disk).Keys
      ensures ok ==> forall a :: a in jobs ==> IsReloaded(old(disk)[a], jobs[a], now)
      ensures steady ==> ok
    {
      hide Leads, IsReloaded, Terminal;
      var rest := disk.Keys;
      while rest != {}
        invariant Valid() && worker.Loading? && outputs == old(outputs) && now == old(now)
        invariant disk.Keys == old(disk).Keys && jobs.Keys == disk.Keys - rest && rest <= disk.Keys
        invariant forall a :: a in jobs ==> IsReloaded(old(disk)[a], jobs[a], now)
        invariant forall a :: a in rest ==> disk[a] == old(disk)[a]
        decreases rest
      {
        var a :| a in rest;
        if |jobs| >= 1000 {
          NoQuotaHit(a);
          assert false;
        }
        var loaded := LoadOne(a);
        if !loaded {
          return false;
        }
        rest := rest - {a};
      }
      OpenForWork();
      return true;
    }

    lemma NoQuotaHit(a: string)
      requires Valid() && worker.Loading? && a in disk && a !in jobs
      ensures |jobs| < MAX_RECORDS
    {
      QuotasHold(start, run, "");
      assert Enabled(Current(), Load(a, Stored));
    }

    method LoadOne(a: string) returns (ok: bool)
      requires Valid() && worker.Loading? && a in disk && a !in jobs && |jobs| < MAX_RECORDS
      modifies this
      ensures Valid() && worker.Loading? && outputs == old(outputs) && now == old(now)
      ensures ok ==> a in disk && disk == old(disk)[a := disk[a]] && jobs == old(jobs)[a := disk[a]]
      ensures ok ==> IsReloaded(old(disk)[a], disk[a], now)
      ensures steady ==> ok
    {
      hide Leads, Terminal;
      if Terminal(disk[a].state) {
        TakeOver(a);
        return true;
      }
      var save := MarkInterrupted(a);
      return save == Stored;
    }

    method TakeOver(a: string)
      requires Valid() && worker.Loading? && a in disk && a !in jobs && |jobs| < MAX_RECORDS && Terminal(disk[a].state)
      modifies this
      ensures Valid() && worker.Loading? && outputs == old(outputs) && now == old(now)
      ensures disk == old(disk) && jobs == old(jobs)[a := disk[a]]
    {
      hide Leads, Enabled, Apply;
      ghost var before := Current();
      LoadApplies(before, a);
      jobs := jobs[a := disk[a]];
      Note(before, Load(a, Stored));
    }

    method MarkInterrupted(a: string) returns (save: Save)
      requires Valid() && worker.Loading? && a in disk && a !in jobs && |jobs| < MAX_RECORDS && !Terminal(disk[a].state)
      modifies this
      ensures Valid() && worker.Loading? && outputs == old(outputs) && now == old(now)
      ensures save == Stored ==> a in disk && disk == old(disk)[a := disk[a]] && jobs == old(jobs)[a := disk[a]]
      ensures save == Stored ==> disk[a] == old(disk)[a].(state := State.Interrupted, updated := now)
      ensures steady ==> save == Stored
    {
      hide Leads, Enabled, Apply;
      ghost var before := Current();
      LoadApplies(before, a);
      save := Fate();
      var j := disk[a].(state := State.Interrupted, updated := now);
      if save != Lost {
        disk := disk[a := j];
        restored := restored + {a};
      }
      if save == Stored {
        jobs := jobs[a := j];
      }
      Note(before, Load(a, save));
    }

    method OpenForWork()
      requires Valid() && worker.Loading? && disk.Keys <= jobs.Keys
      modifies this
      ensures Valid() && worker == Waiting && ready && jobs == old(jobs) && disk == old(disk) && outputs == old(outputs) && jobs == disk && now == old(now)
    {
      hide Inv, Enabled, Apply;
      ghost var before := Current();
      OpenApplies(before);
      worker, ready := Waiting, true;
      Note(before, Open);
    }
  }
}
