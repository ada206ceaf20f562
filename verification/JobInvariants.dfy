/** What every run of the job system keeps, whatever fails and wherever it crashes. */
module JobInvariants {
  import opened Basics
  import opened JobProtocol

  /*** The journal ***/

  /** The record accounts for what the job has made visible: every output is published or
      intended, and everything published is visible. */
  predicate Journaled(j: Job, outputs: set<string>) {
    && (forall path :: path in outputs ==> path in j.published || j.intent == Some(path))
    && (forall path :: path in j.published ==> path in outputs)
  }

  /** What the state of a job says about its outputs. */
  predicate Sound(j: Job, restored: bool) {
    match j.state
    case Queued => j.published == [] && j.intent.None?
    case Failed => j.published == [] && j.intent.None?
    case Cancelled => j.published == [] && j.intent.None?
    case Interrupted => restored || (j.published == [] && j.intent.None?)
    case Succeeded => j.intent.None? && PlanFits(j.request, j.published)
    case Running => true
    case Partial => true
  }

  predicate RecordOk(s: System, id: string, j: Job) {
    j.id == id && Journaled(j, Outputs(s, id)) && Sound(j, id in s.restored)
  }

  ghost predicate Records(s: System) {
    && (forall id :: id in s.memory ==> RecordOk(s, id, s.memory[id]))
    && (forall id :: id in s.disk ==> RecordOk(s, id, s.disk[id]))
  }

  /*** Memory and disk ***/

  ghost predicate Agrees(s: System) {
    && (s.ready ==> s.memory == s.disk)
    && (s.worker.Loading? ==> !s.ready && forall id :: id in s.memory ==> id in s.disk && s.memory[id] == s.disk[id] && Terminal(s.memory[id].state))
  }

  /** A record of this job, in memory or on disk, answers to this idempotency key. */
  predicate KeyAt(s: System, id: string, scope: string, key: string) {
    || (id in s.memory && s.memory[id].scope == scope && s.memory[id].key == key)
    || (id in s.disk && s.disk[id].scope == scope && s.disk[id].key == key)
  }

  /** Each idempotency key belongs to one job, in memory and on disk taken together. */
  ghost predicate UniqueKeys(s: System) {
    forall a, b, scope, key :: KeyAt(s, a, scope, key) && KeyAt(s, b, scope, key) ==> a == b
  }

  ghost predicate Bounded(s: System) {
    && |s.memory.Keys + s.disk.Keys| <= MAX_RECORDS
    && |Unfinished(s.memory)| <= MAX_ACTIVE
    && forall scope :: |Owned(s.memory, scope)| <= MAX_OWNED
  }

  /*** The worker ***/

  /** The worker's job has published a prefix of its plan. */
  predicate Executes(s: System) {
    s.worker.Executing? ==>
      && s.worker.id in s.memory
      && var j := s.memory[s.worker.id];
         && PlanFits(j.request, s.worker.plan)
         && j.published <= s.worker.plan
         && j.state != Queued && (s.ready ==> j.state == Running)
         && (s.worker.verdict == Completed ==> j.published == s.worker.plan && j.intent.None?)
         && (s.worker.verdict == Going && s.worker.phase == Idle ==> j.intent.None?)
         && (s.worker.verdict == Going && s.worker.phase != Idle ==>
               && |j.published| < |s.worker.plan| && j.intent == Some(s.worker.plan[|j.published|])
               && s.worker.id in s.disk && s.disk[s.worker.id].published == j.published && s.disk[s.worker.id].intent == j.intent
               && (s.worker.phase == Renamed ==> s.worker.plan[|j.published|] in Outputs(s, s.worker.id)))
  }

  /** At most one job runs, and it is the worker's. */
  ghost predicate OneRunning(s: System) {
    forall id :: id in s.memory && s.memory[id].state == Running ==> s.worker.Executing? && s.worker.id == id
  }

  /** No wake-up is lost, and a stopped worker leaves nothing unfinished. */
  ghost predicate Attentive(s: System) {
    && (s.worker.Waiting? && !s.stopping && !s.wake ==> forall id :: id in s.memory ==> s.memory[id].state != Queued)
    && (s.worker.Stopped? ==> s.stopping && forall id :: id in s.memory ==> Terminal(s.memory[id].state))
  }

  ghost predicate Inv(s: System) {
    Records(s) && Agrees(s) && UniqueKeys(s) && Bounded(s) && Executes(s) && OneRunning(s) && Attentive(s)
  }

  lemma InitialInv(s: System)
    requires Initial(s)
    ensures Inv(s)
  {
    assert Unfinished(s.memory) == {};
    forall scope
      ensures Owned(s.memory, scope) == {}
    {
    }
  }

  /*** One record is updated ***/

  /** `j` is a later version of the record in memory. */
  predicate Updates(s: System, j: Job) {
    && j.id in s.memory && SameKey(j, s.memory[j.id]) && j.request == s.memory[j.id].request
    && (Terminal(s.memory[j.id].state) ==> Terminal(j.state))
    && RecordOk(s, j.id, j)
  }

  lemma SavedIsOk(s: System, j: Job)
    requires RecordOk(s, j.id, j)
    ensures RecordOk(s, j.id, j.(updated := s.now)) && RecordOk(s, j.id, Broken(j.(updated := s.now)))
  {
  }

  lemma UpdateKeepsRecords(s: System, j: Job, save: Save)
    requires Records(s) && Updates(s, j)
    ensures Records(Persist(s, j, save))
  {
    hide RecordOk, Broken;
    var u := Persist(s, j, save);
    SavedIsOk(s, j);
    forall id | id in u.memory
      ensures RecordOk(u, id, u.memory[id])
    {
      SameHistory(s, u, id, u.memory[id]);
    }
    forall id | id in u.disk
      ensures RecordOk(u, id, u.disk[id])
    {
      SameHistory(s, u, id, u.disk[id]);
    }
  }

  lemma UpdateKeepsKeys(s: System, j: Job, save: Save)
    requires UniqueKeys(s) && Updates(s, j)
    ensures UniqueKeys(Persist(s, j, save))
  {
    hide RecordOk;
    var u := Persist(s, j, save);
    forall id, scope, key | KeyAt(u, id, scope, key)
      ensures KeyAt(s, id, scope, key)
    {
    }
  }

  lemma UpdateKeepsCounts(m: map<string, Job>, n: map<string, Job>, id: string, scope: string)
    requires id in m && id in n && n == m[id := n[id]]
    requires n[id].scope == m[id].scope && (Terminal(m[id].state) ==> Terminal(n[id].state))
    ensures |Unfinished(n)| <= |Unfinished(m)|
    ensures |Owned(n, scope)| <= |Owned(m, scope)|
  {
    SubsetSize(Unfinished(n), Unfinished(m));
    SubsetSize(Owned(n, scope), Owned(m, scope));
  }

  lemma UpdateKeepsDomains(s: System, j: Job, save: Save)
    requires j.id in s.memory
    ensures Persist(s, j, save).memory.Keys == s.memory.Keys
    ensures Persist(s, j, save).memory == s.memory[j.id := Persist(s, j, save).memory[j.id]]
    ensures Persist(s, j, save).disk.Keys <= s.disk.Keys + {j.id}
  {
  }

  lemma UpdatedRecord(s: System, j: Job, save: Save)
    ensures
      var k := Persist(s, j, save).memory[j.id];
      k.scope == j.scope && (Terminal(j.state) ==> Terminal(k.state))
  {
  }

  lemma UpdateKeepsSizes(s: System, j: Job, save: Save, scope: string)
    requires j.id in s.memory && j.scope == s.memory[j.id].scope && (Terminal(s.memory[j.id].state) ==> Terminal(j.state))
    ensures |Unfinished(Persist(s, j, save).memory)| <= |Unfinished(s.memory)|
    ensures |Owned(Persist(s, j, save).memory, scope)| <= |Owned(s.memory, scope)|
    ensures |Persist(s, j, save).memory.Keys + Persist(s, j, save).disk.Keys| <= |s.memory.Keys + s.disk.Keys|
  {
    hide Unfinished, Owned;
    var u := Persist(s, j, save);
    UpdateKeepsDomains(s, j, save);
    UpdatedRecord(s, j, save);
    hide Persist;
    UpdateKeepsCounts(s.memory, u.memory, j.id, scope);
    SubsetSize(u.memory.Keys + u.disk.Keys, s.memory.Keys + s.disk.Keys);
  }

  lemma UpdateKeepsBounds(s: System, j: Job, save: Save)
    requires Bounded(s) && Updates(s, j)
    ensures Bounded(Persist(s, j, save))
  {
    hide RecordOk, Unfinished, Owned, Persist;
    UpdateKeepsSizes(s, j, save, j.scope);
    forall scope
      ensures |Owned(Persist(s, j, save).memory, scope)| <= MAX_OWNED
    {
      UpdateKeepsSizes(s, j, save, scope);
    }
  }

  /** What an update of one record keeps, whatever becomes of the save. */
  lemma UpdateKeepsJournal(s: System, j: Job, save: Save)
    requires Records(s) && UniqueKeys(s) && Bounded(s) && Updates(s, j)
    ensures Records(Persist(s, j, save)) && UniqueKeys(Persist(s, j, save)) && Bounded(Persist(s, j, save))
    ensures s.ready && s.memory == s.disk ==> Persist(s, j, save).ready ==> Persist(s, j, save).memory == Persist(s, j, save).disk
  {
    hide RecordOk, UniqueKeys, Bounded, Records;
    UpdateKeepsRecords(s, j, save);
    UpdateKeepsKeys(s, j, save);
    UpdateKeepsBounds(s, j, save);
  }

  /*** Every update writes a sound later version ***/

  /** A queued job can be marked in any way, a running one can be asked to stop. */
  lemma MarkingUpdates(s: System, a: Step)
    requires Inv(s) && (a.Cancel? || a.Pick? || a.Interrupt?) && Enabled(s, a)
    ensures Updates(s, Version(s, a))
  {
    hide UniqueKeys, Bounded, Agrees, Attentive, Executes;
    var j, k := s.memory[a.id], Version(s, a);
    assert RecordOk(s, a.id, j);
    assert j.state == Running ==> a.Cancel?;
    hide Records, OneRunning;
    assert k == j.(state := k.state, cancelRequested := k.cancelRequested) && !Terminal(j.state);
    assert j.state == Queued ==> k.state == Running || k.state == State.Cancelled || k.state == State.Interrupted;
    assert j.state == Running ==> k.state == Running;
    hide Enabled, Version, Inv;
  }

  lemma StagingUpdates(s: System, a: Step)
    requires Inv(s) && (a.Stage? || a.Clean? || a.Checkpoint?) && Enabled(s, a)
    ensures Updates(s, Version(s, a))
  {
    hide Records, UniqueKeys, Bounded, Agrees, Attentive, OneRunning, Executes;
    var j, k := s.memory[s.worker.id], Version(s, a);
    assert k == j.(stages := k.stages);
    WorkersRecord(s);
    hide Enabled, Version, Inv;
  }

  lemma WorkersRecord(s: System)
    requires Inv(s) && s.worker.Executing?
    ensures s.worker.id in s.memory && RecordOk(s, s.worker.id, s.memory[s.worker.id])
    ensures s.memory[s.worker.id].id == s.worker.id
  {
    hide Journaled, Sound, UniqueKeys, Bounded, Agrees, Attentive, OneRunning;
  }

  lemma PublishingUpdates(s: System, a: Step)
    requires Inv(s) && (a.Intend? || a.Publish?) && Enabled(s, a)
    ensures Updates(s, Version(s, a))
  {
    hide Records, UniqueKeys, Bounded, Agrees, Attentive, OneRunning;
    var j, k := s.memory[s.worker.id], Version(s, a);
    WorkersRecord(s);
    assert k == j.(published := k.published, intent := k.intent) && j.state == Running;
    assert a.Intend? ==> j.intent.None? && k.published == j.published;
    assert a.Publish? ==> j.intent.Some? && k.published == j.published + [j.intent.value] && k.intent.None?
                          && j.intent.value in Outputs(s, j.id);
    hide Enabled, Version, Inv, Executes;
  }

  /** The state a returned execution leads to is true of what it published. */
  lemma FinalStateIsSound(j: Job, plan: seq<string>, restored: bool, verdict: Verdict, stopping: bool, interrupted: bool, audited: bool)
    requires PlanFits(j.request, plan) && verdict != Going
    requires verdict == Completed ==> j.published == plan && j.intent.None?
    ensures
      var state := FinalState(j, verdict, stopping, interrupted, audited);
      Terminal(state) && Sound(j.(state := state), restored)
  {
  }

  lemma FinishingUpdates(s: System, a: Step)
    requires Inv(s) && a.Finish? && Enabled(s, a)
    ensures Updates(s, Version(s, a))
  {
    hide Records, UniqueKeys, Bounded, Agrees, Attentive, OneRunning;
    var j, k := s.memory[s.worker.id], Version(s, a);
    assert k == j.(state := FinalState(j, s.worker.verdict, s.stopping, a.interrupted, a.audited));
    WorkersRecord(s);
    FinalStateIsSound(j, s.worker.plan, s.worker.id in s.restored, s.worker.verdict, s.stopping, a.interrupted, a.audited);
    hide Enabled, Version, Inv, FinalState, Sound, Executes;
  }

  lemma VersionUpdates(s: System, a: Step)
    requires Inv(s) && IsUpdate(a) && Enabled(s, a)
    ensures Updates(s, Version(s, a))
  {
    hide Inv, Enabled, Updates, Version;
    if a.Cancel? || a.Pick? || a.Interrupt? {
      MarkingUpdates(s, a);
    } else if a.Stage? || a.Clean? || a.Checkpoint? {
      StagingUpdates(s, a);
    } else if a.Finish? {
      FinishingUpdates(s, a);
    } else {
      PublishingUpdates(s, a);
    }
  }

  /*** Every step keeps the journal, the keys and the bounds ***/

  ghost predicate JournalInv(s: System) {
    Records(s) && UniqueKeys(s) && Bounded(s)
  }

  /** An update saves a version and moves the worker. */
  lemma UpdateApplies(s: System, a: Step)
    requires IsUpdate(a) && Enabled(s, a)
    ensures Apply(s, a) == Persist(s, Version(s, a), a.save).(worker := WorkerAfter(s, a))
  {
    hide Enabled, Version, WorkerAfter, Persist;
  }

  lemma UpdateStepKeepsJournal(s: System, a: Step)
    requires Inv(s) && IsUpdate(a) && Enabled(s, a)
    ensures JournalInv(Apply(s, a))
  {
    hide Enabled, Apply, Version, WorkerAfter, Persist, Updates, Records, UniqueKeys, Bounded, Agrees, Executes, OneRunning, Attentive;
    VersionUpdates(s, a);
    UpdateApplies(s, a);
    UpdateKeepsJournal(s, Version(s, a), a.save);
    OnlyWorkerDiffers(Persist(s, Version(s, a), a.save), Apply(s, a));
  }

  lemma OnlyWorkerDiffers(p: System, u: System)
    requires JournalInv(p)
    requires u.memory == p.memory && u.disk == p.disk && u.outputs == p.outputs && u.restored == p.restored
    ensures JournalInv(u)
  {
    hide RecordOk;
    forall id | id in u.memory
      ensures RecordOk(u, id, u.memory[id])
    {
      SameHistory(p, u, id, u.memory[id]);
    }
    forall id | id in u.disk
      ensures RecordOk(u, id, u.disk[id])
    {
      SameHistory(p, u, id, u.disk[id]);
    }
    forall id, scope, key | KeyAt(u, id, scope, key)
      ensures KeyAt(p, id, scope, key)
    {
    }
  }

  lemma SameHistory(p: System, u: System, id: string, j: Job)
    requires u.outputs == p.outputs && u.restored == p.restored && RecordOk(p, id, j)
    ensures RecordOk(u, id, j)
  {
  }

  /** `u` has the record `j` under `id` in place of, or besides, those of `s`. */
  ghost predicate Replaces(s: System, u: System, id: string, j: Job) {
    && (u.memory == s.memory || u.memory == s.memory[id := j])
    && (u.disk == s.disk || u.disk == s.disk[id := j])
    && u.outputs == s.outputs
  }

  lemma SubmitKeepsJournal(s: System, a: Step)
    requires Inv(s) && a.Submit? && Enabled(s, a)
    ensures JournalInv(Apply(s, a))
  {
    SubmitEffect(s, a);
    hide Apply, Enabled;
    AddedRecordKeepsJournal(s, Apply(s, a), a.job.(updated := s.now));
  }

  lemma SubmitEffect(s: System, a: Step)
    requires a.Submit? && Enabled(s, a)
    ensures
      var j := a.job.(updated := s.now);
      && Replaces(s, Apply(s, a), j.id, j) && Apply(s, a).restored == s.restored
      && s.ready && j.id !in s.memory && j.id !in s.outputs && j.state == Queued && j.published == [] && j.intent.None?
      && (forall b :: b in s.memory ==> !SameKey(s.memory[b], j))
      && |Unfinished(s.memory)| < MAX_ACTIVE && |Owned(s.memory, j.scope)| < MAX_OWNED && |s.memory| < MAX_RECORDS
  {
    hide Unfinished, Owned;
  }

  lemma AddedRecordKeepsJournal(s: System, u: System, j: Job)
    requires JournalInv(s) && s.memory == s.disk && Replaces(s, u, j.id, j) && u.restored == s.restored
    requires j.id !in s.memory && j.id !in s.outputs && j.state == Queued && j.published == [] && j.intent.None?
    requires forall b :: b in s.memory ==> !SameKey(s.memory[b], j)
    requires |Unfinished(s.memory)| < MAX_ACTIVE && |Owned(s.memory, j.scope)| < MAX_OWNED && |s.memory| < MAX_RECORDS
    ensures JournalInv(u)
  {
    hide RecordOk, Bounded, UniqueKeys, Records, SameKey, Unfinished, Owned, Replaces, RecordsAfter;
    QueuedRecordIsOk(s, j);
    SubmitKeepsKeys(s, u, j);
    SubmitKeepsBounds(s, u, j);
    ReplacedRecords(s, u, j.id, j);
    RecordsKept(s, u, j.id, j);
  }

  lemma QueuedRecordIsOk(s: System, j: Job)
    requires j.id !in s.outputs && j.state == Queued && j.published == [] && j.intent.None?
    ensures RecordOk(s, j.id, j)
  {
  }

  lemma ReplacedRecords(s: System, u: System, id: string, j: Job)
    requires Replaces(s, u, id, j)
    ensures RecordsAfter(s, u, id, j) && u.outputs == s.outputs
  {
  }

  lemma SubmitKeepsBounds(s: System, u: System, j: Job)
    requires Bounded(s) && s.memory == s.disk && Replaces(s, u, j.id, j)
    requires j.id !in s.memory && j.state == Queued
    requires |Unfinished(s.memory)| < MAX_ACTIVE && |Owned(s.memory, j.scope)| < MAX_OWNED && |s.memory| < MAX_RECORDS
    ensures Bounded(u)
  {
    hide Unfinished, Owned, KeyAt;
    SubsetSize(u.memory.Keys + u.disk.Keys, s.memory.Keys + {j.id});
    assert |s.memory.Keys + {j.id}| == |s.memory| + 1;
    AddedJobCounts(s.memory, j, j.scope);
    forall scope
      ensures |Owned(u.memory, scope)| <= MAX_OWNED
    {
      AddedJobCounts(s.memory, j, scope);
    }
  }

  lemma AddedJobCounts(m: map<string, Job>, j: Job, scope: string)
    requires j.id !in m && !Terminal(j.state)
    ensures |Unfinished(m[j.id := j])| == |Unfinished(m)| + 1
    ensures |Owned(m[j.id := j], scope)| == |Owned(m, scope)| + if scope == j.scope then 1 else 0
  {
    AddedJobIsUnfinished(m, j);
    AddedJobIsOwned(m, j, scope);
  }

  lemma AddedJobIsUnfinished(m: map<string, Job>, j: Job)
    requires j.id !in m && !Terminal(j.state)
    ensures |Unfinished(m[j.id := j])| == |Unfinished(m)| + 1
  {
    hide Terminal;
    assert Unfinished(m[j.id := j]) == Unfinished(m) + {j.id};
  }

  lemma AddedJobIsOwned(m: map<string, Job>, j: Job, scope: string)
    requires j.id !in m && !Terminal(j.state)
    ensures |Owned(m[j.id := j], scope)| == |Owned(m, scope)| + if scope == j.scope then 1 else 0
  {
    hide Terminal;
    if scope == j.scope {
      assert Owned(m[j.id := j], scope) == Owned(m, scope) + {j.id};
    } else {
      assert Owned(m[j.id := j], scope) == Owned(m, scope);
    }
  }

  lemma SubmitKeepsKeys(s: System, u: System, j: Job)
    requires UniqueKeys(s) && s.memory == s.disk && j.id !in s.memory
    requires forall b :: b in s.memory ==> !SameKey(s.memory[b], j)
    requires Replaces(s, u, j.id, j)
    ensures UniqueKeys(u)
  {
    forall b, scope, key | KeyAt(u, b, scope, key)
      ensures KeyAt(s, b, scope, key) || (b == j.id && scope == j.scope && key == j.key)
    {
    }
    assert forall b :: !KeyAt(s, b, j.scope, j.key);
  }

  /** Every record in `u` is `j` under `id`, or a record of `s`. */
  ghost predicate RecordsAfter(s: System, u: System, id: string, j: Job) {
    && (forall other :: other in u.memory ==>
          (other == id && u.memory[other] == j) || (other in s.memory && u.memory[other] == s.memory[other]))
    && (forall other :: other in u.disk ==>
          (other == id && u.disk[other] == j) || (other in s.disk && u.disk[other] == s.disk[other]))
  }

  lemma RecordsKept(s: System, u: System, id: string, j: Job)
    requires Records(s) && RecordsAfter(s, u, id, j) && RecordOk(s, id, j)
    requires u.outputs == s.outputs && s.restored <= u.restored
    ensures Records(u)
  {
    hide RecordOk;
    forall other, k | RecordOk(s, other, k)
      ensures RecordOk(u, other, k)
    {
      LaterHistory(s, u, other, k);
    }
  }

  lemma LaterHistory(s: System, u: System, id: string, j: Job)
    requires u.outputs == s.outputs && s.restored <= u.restored && RecordOk(s, id, j)
    ensures RecordOk(u, id, j)
  {
  }

  lemma CollectKeepsJournal(s: System, a: Step)
    requires Inv(s) && a.Collect? && Enabled(s, a)
    ensures JournalInv(Apply(s, a))
  {
    CollectEffect(s, a);
    hide Apply, Enabled;
    RemovedRecordsKeepJournal(s, Apply(s, a));
  }

  lemma CollectEffect(s: System, a: Step)
    requires a.Collect? && Enabled(s, a)
    ensures RemovesRecords(s, Apply(s, a))
  {
  }

  ghost predicate RemovesRecords(s: System, u: System) {
    && (forall id :: id in u.memory ==> id in s.memory && u.memory[id] == s.memory[id])
    && (forall id :: id in u.disk ==> id in s.disk && u.disk[id] == s.disk[id])
    && u.outputs == s.outputs && u.restored == s.restored
  }

  lemma RemovedRecordsKeepJournal(s: System, u: System)
    requires JournalInv(s) && RemovesRecords(s, u)
    ensures JournalInv(u)
  {
    hide RecordOk, Records, UniqueKeys, Bounded, RemovesRecords, KeyAt, Unfinished, Owned;
    RemainingRecordsAreOk(s, u);
    RemovingAddsNothing(s, u);
    FewerRecords(s, u);
  }

  lemma RemainingRecordsAreOk(s: System, u: System)
    requires Records(s) && RemovesRecords(s, u)
    ensures Records(u)
  {
    hide RecordOk;
    forall id, j | RecordOk(s, id, j)
      ensures RecordOk(u, id, j)
    {
      SameHistory(s, u, id, j);
    }
  }

  lemma RemovingAddsNothing(s: System, u: System)
    requires RemovesRecords(s, u)
    ensures u.memory.Keys + u.disk.Keys <= s.memory.Keys + s.disk.Keys
    ensures forall id, scope, key :: KeyAt(u, id, scope, key) ==> KeyAt(s, id, scope, key)
    ensures forall id :: id in u.memory && !Terminal(u.memory[id].state) ==> id in s.memory && s.memory[id] == u.memory[id]
  {
    hide Terminal;
  }

  /** Removing or replacing records without adding keys or unfinished jobs. */
  lemma FewerRecords(s: System, u: System)
    requires UniqueKeys(s) && Bounded(s)
    requires u.memory.Keys + u.disk.Keys <= s.memory.Keys + s.disk.Keys
    requires forall id, scope, key :: KeyAt(u, id, scope, key) ==> KeyAt(s, id, scope, key)
    requires forall id :: id in u.memory && !Terminal(u.memory[id].state) ==> id in s.memory && s.memory[id] == u.memory[id]
    ensures UniqueKeys(u) && Bounded(u)
  {
    SubsetSize(u.memory.Keys + u.disk.Keys, s.memory.Keys + s.disk.Keys);
    SubsetSize(Unfinished(u.memory), Unfinished(s.memory));
    forall scope
      ensures |Owned(u.memory, scope)| <= MAX_OWNED
    {
      SubsetSize(Owned(u.memory, scope), Owned(s.memory, scope));
    }
  }

  lemma HideKeepsJournal(s: System, a: Step)
    requires Inv(s) && a.Hide? && Enabled(s, a)
    ensures JournalInv(Apply(s, a))
  {
    assert RecordOk(s, a.id, s.memory[a.id]);
    HideEffect(s, a);
    hide Apply, Enabled;
    HiddenRecordKeepsJournal(s, Apply(s, a), a.id);
  }

  lemma HideEffect(s: System, a: Step)
    requires a.Hide? && Enabled(s, a) && s.memory[a.id].id == a.id
    ensures s.ready && a.id in s.memory && Terminal(s.memory[a.id].state)
    ensures Replaces(s, Apply(s, a), a.id, s.memory[a.id].(hidden := true)) && Apply(s, a).restored == s.restored
  {
  }

  lemma HiddenRecordKeepsJournal(s: System, u: System, id: string)
    requires JournalInv(s) && s.memory == s.disk && id in s.memory && Terminal(s.memory[id].state)
    requires Replaces(s, u, id, s.memory[id].(hidden := true)) && u.restored == s.restored
    ensures JournalInv(u)
  {
    hide RecordOk, UniqueKeys, Bounded, Replaces, RecordsAfter, KeyAt;
    var j := s.memory[id].(hidden := true);
    assert RecordOk(s, id, s.memory[id]);
    hide Records;
    HidingKeepsRecord(s, id);
    ReplacedRecords(s, u, id, j);
    RecordsKept(s, u, id, j);
    ReplacedRecordIsOneOfFewer(s, u, id, j);
    FewerRecords(s, u);
  }

  lemma HidingKeepsRecord(s: System, id: string)
    requires id in s.memory && RecordOk(s, id, s.memory[id])
    ensures RecordOk(s, id, s.memory[id].(hidden := true))
    ensures KeyAt(s, id, s.memory[id].scope, s.memory[id].key)
  {
  }

  /** A finished record that takes the place of one with the same key. */
  lemma ReplacedRecordIsOneOfFewer(s: System, u: System, id: string, j: Job)
    requires Replaces(s, u, id, j) && Terminal(j.state)
    requires KeyAt(s, id, j.scope, j.key)
    ensures u.memory.Keys + u.disk.Keys <= s.memory.Keys + s.disk.Keys
    ensures forall id, scope, key :: KeyAt(u, id, scope, key) ==> KeyAt(s, id, scope, key)
    ensures forall id :: id in u.memory && !Terminal(u.memory[id].state) ==> id in s.memory && s.memory[id] == u.memory[id]
  {
  }

  /** A rename makes visible what the records in memory and on disk intend. */
  lemma RenameEffect(s: System, a: Step)
    requires Inv(s) && a.Rename? && Enabled(s, a)
    ensures s.worker.Executing?
    ensures
      var u, id := Apply(s, a), s.worker.id;
      && u.memory == s.memory && u.disk == s.disk && u.restored == s.restored
      && id in s.memory && id in s.disk && s.memory[id].intent.Some? && s.disk[id].intent == s.memory[id].intent
      && u.outputs == s.outputs[id := Outputs(s, id) + {s.memory[id].intent.value}]
  {
    hide Records, UniqueKeys, Bounded, Agrees, OneRunning, Attentive;
  }

  lemma IntendedOutput(s: System, u: System, id: string, path: string, other: string, k: Job)
    requires RecordOk(s, other, k) && (other == id ==> k.intent == Some(path))
    requires u.outputs == s.outputs[id := Outputs(s, id) + {path}] && u.restored == s.restored
    ensures RecordOk(u, other, k)
  {
    assert Outputs(u, other) == if other == id then Outputs(s, id) + {path} else Outputs(s, other);
  }

  lemma RenameKeepsJournal(s: System, a: Step)
    requires Inv(s) && a.Rename? && Enabled(s, a)
    ensures JournalInv(Apply(s, a))
  {
    hide UniqueKeys, Bounded, Agrees, Executes, OneRunning, Attentive, Enabled, Apply, RecordOk;
    RenameEffect(s, a);
    var u, id := Apply(s, a), s.worker.id;
    forall other, k | RecordOk(s, other, k) && (other == id ==> k.intent == s.memory[id].intent)
      ensures RecordOk(u, other, k)
    {
      IntendedOutput(s, u, id, s.memory[id].intent.value, other, k);
    }
    FewerRecords(s, u);
  }

  lemma CrashKeepsJournal(s: System, a: Step)
    requires Inv(s) && a.Crash? && Enabled(s, a)
    ensures JournalInv(Apply(s, a))
  {
    hide Records, UniqueKeys, Bounded, Agrees, Executes, OneRunning, Attentive;
    assert RemovesRecords(s, Apply(s, a));
    hide Apply, Enabled, RemovesRecords;
    RemovedRecordsKeepJournal(s, Apply(s, a));
  }

  lemma LoadKeepsJournal(s: System, a: Step)
    requires Inv(s) && a.Load? && Enabled(s, a)
    ensures JournalInv(Apply(s, a))
  {
    LoadEffect(s, a);
    hide Apply, Enabled;
    LoadedRecordKeepsJournal(s, Apply(s, a), a.id, Loaded(s, a.id));
  }

  lemma LoadEffect(s: System, a: Step)
    requires a.Load? && Enabled(s, a)
    ensures a.id in s.disk && Replaces(s, Apply(s, a), a.id, Loaded(s, a.id))
    ensures
      var u := Apply(s, a);
      s.restored <= u.restored && (Loaded(s, a.id) == s.disk[a.id] || a.id in u.restored || (u.memory == s.memory && u.disk == s.disk))
  {
    hide LoadRecord;
    assert a.id in s.disk && Apply(s, a) == LoadRecord(s, a.id, a.save);
    hide Apply, Enabled;
    LoadRecordEffect(s, a.id, a.save);
  }

  lemma LoadRecordEffect(s: System, id: string, save: Save)
    requires id in s.disk
    ensures Replaces(s, LoadRecord(s, id, save), id, Loaded(s, id))
    ensures
      var u := LoadRecord(s, id, save);
      s.restored <= u.restored && (Loaded(s, id) == s.disk[id] || id in u.restored || (u.memory == s.memory && u.disk == s.disk))
  {
  }

  lemma LoadedRecordKeepsJournal(s: System, u: System, id: string, k: Job)
    requires JournalInv(s) && id in s.disk && k == Loaded(s, id) && Replaces(s, u, id, k) && s.restored <= u.restored
    requires k == s.disk[id] || id in u.restored || (u.memory == s.memory && u.disk == s.disk)
    ensures JournalInv(u)
  {
    assert RecordOk(s, id, s.disk[id]);
    LoadedRecords(s, u, id, k);
    ReplacedRecordIsOneOfFewer(s, u, id, k);
    hide Records, UniqueKeys, Bounded;
    FewerRecords(s, u);
  }

  lemma LoadedRecords(s: System, u: System, id: string, k: Job)
    requires Records(s) && id in s.disk && u.outputs == s.outputs && s.restored <= u.restored
    requires k == Loaded(s, id) && Replaces(s, u, id, k)
    requires k == s.disk[id] || id in u.restored || (u.memory == s.memory && u.disk == s.disk)
    ensures Records(u)
  {
    hide RecordOk, Loaded;
    forall other, j | RecordOk(s, other, j)
      ensures RecordOk(u, other, j)
    {
      LaterHistory(s, u, other, j);
    }
    assert RecordOk(s, id, s.disk[id]);
    if u.memory != s.memory || u.disk != s.disk {
      LoadedIsOk(s, u, id);
    }
  }

  /** A record taken over as it is, or marked once its job counts as restored. */
  lemma LoadedIsOk(s: System, u: System, id: string)
    requires id in s.disk && RecordOk(u, id, s.disk[id]) && (Loaded(s, id) == s.disk[id] || id in u.restored)
    ensures RecordOk(u, id, Loaded(s, id))
  {
  }

  lemma StepKeepsJournal(s: System, a: Step)
    requires Inv(s) && Enabled(s, a)
    ensures JournalInv(Apply(s, a))
  {
    hide Inv, Enabled, Version, WorkerAfter, Add, Replace, LoadRecord, Persist, JournalInv;
    if IsUpdate(a) {
      UpdateStepKeepsJournal(s, a);
    } else if a.Submit? {
      SubmitKeepsJournal(s, a);
    } else if a.Collect? {
      CollectKeepsJournal(s, a);
    } else if a.Hide? {
      HideKeepsJournal(s, a);
    } else if a.Rename? {
      RenameKeepsJournal(s, a);
    } else if a.Crash? {
      CrashKeepsJournal(s, a);
    } else if a.Load? {
      LoadKeepsJournal(s, a);
    } else {
      JournalOfInv(s);
      OnlyWorkerDiffers(s, Apply(s, a));
    }
  }

  lemma JournalOfInv(s: System)
    requires Inv(s)
    ensures JournalInv(s)
  {
    hide Records, UniqueKeys, Bounded;
  }

  /*** Every step keeps the worker's promises ***/

  /** What the worker promises, apart from the journal. */
  ghost predicate WorkerInv(s: System) {
    Agrees(s) && Executes(s) && OneRunning(s) && Attentive(s)
  }

  /** The step leaves memory, disk, outputs and readiness alone. */
  predicate IsQuiet(a: Step) {
    a.Stop? || a.Wake? || a.Sleep? || a.Abort? || a.Return? || a.Halt? || a.Tick? || a.Open? || a.Distrust?
  }

  lemma QuietStepKeepsWorker(s: System, a: Step)
    requires Inv(s) && IsQuiet(a) && Enabled(s, a)
    ensures WorkerInv(Apply(s, a))
  {
    hide Inv, WorkerInv, Enabled, Apply;
    if a.Abort? || a.Return? {
      EndingKeepsWorker(s, a);
    } else if a.Wake? || a.Sleep? || a.Halt? {
      TurnKeepsWorker(s, a);
    } else {
      FlagKeepsWorker(s, a);
    }
  }

  lemma EndingKeepsWorker(s: System, a: Step)
    requires Inv(s) && (a.Abort? || a.Return?) && Enabled(s, a)
    ensures WorkerInv(Apply(s, a))
  {
    hide Records, UniqueKeys, Bounded, PlanFits;
  }

  lemma TurnKeepsWorker(s: System, a: Step)
    requires Inv(s) && (a.Wake? || a.Sleep? || a.Halt?) && Enabled(s, a)
    ensures WorkerInv(Apply(s, a))
  {
    hide Records, UniqueKeys, Bounded;
    if a.Halt? {
      assert forall id :: id in s.memory && !Terminal(s.memory[id].state) ==> id in Unfinished(s.memory);
    }
  }

  lemma FlagKeepsWorker(s: System, a: Step)
    requires Inv(s) && (a.Stop? || a.Tick? || a.Open? || a.Distrust?) && Enabled(s, a)
    ensures WorkerInv(Apply(s, a))
  {
    hide Records, UniqueKeys, Bounded, Agrees, Executes, OneRunning, Attentive;
    if a.Open? {
      OpeningKeepsWorker(s);
    } else {
      FlagsDoNotMatter(s, Apply(s, a));
    }
  }

  lemma FlagsDoNotMatter(s: System, u: System)
    requires WorkerInv(s)
    requires u == s.(stopping := u.stopping, now := u.now, ready := u.ready) && (s.stopping ==> u.stopping) && (u.ready ==> s.ready)
    ensures WorkerInv(u)
  {
    hide PlanFits;
  }

  lemma OpeningKeepsWorker(s: System)
    requires WorkerInv(s) && s.worker.Loading? && s.disk.Keys <= s.memory.Keys
    ensures WorkerInv(s.(worker := Waiting, ready := true))
  {
  }

  lemma SubmitKeepsWorker(s: System, a: Step)
    requires Inv(s) && a.Submit? && Enabled(s, a)
    ensures WorkerInv(Apply(s, a))
  {
    hide Records, UniqueKeys, Bounded, RecordOk, Add;
    var j := a.job.(updated := s.now);
    assert Apply(s, a) == Add(s, j, a.save) && s.ready && !s.stopping && !s.worker.Loading? && j.id !in s.memory && j.state == Queued;
    hide Apply, Enabled;
    AddKeepsWorker(s, j, a.save);
  }

  lemma AddKeepsWorker(s: System, j: Job, save: Save)
    requires WorkerInv(s) && s.ready && !s.stopping && !s.worker.Loading? && j.id !in s.memory && j.state == Queued
    ensures WorkerInv(Add(s, j, save))
  {
  }

  lemma CollectKeepsWorker(s: System, a: Step)
    requires Inv(s) && a.Collect? && Enabled(s, a)
    ensures WorkerInv(Apply(s, a))
  {
    hide UniqueKeys, Bounded;
    hide Records, RecordOk;
  }

  lemma HideKeepsWorker(s: System, a: Step)
    requires Inv(s) && a.Hide? && Enabled(s, a)
    ensures WorkerInv(Apply(s, a))
  {
    hide UniqueKeys, Bounded, Agrees, Executes, OneRunning, Attentive, RecordOk, Replace;
    HidingEffect(s, a);
    assert RecordOk(s, a.id, s.memory[a.id]);
    RecordsId(s, a.id, s.memory[a.id]);
    hide Enabled, Apply, Records;
    HiddenKeepsWorker(s, a.id, a.save);
  }

  lemma HidingEffect(s: System, a: Step)
    requires a.Hide? && Enabled(s, a)
    ensures a.id in s.memory && s.ready && !s.worker.Loading? && Terminal(s.memory[a.id].state)
    ensures Apply(s, a) == Replace(s, s.memory[a.id].(hidden := true), a.save)
  {
    hide Replace;
  }

  lemma RecordsId(s: System, id: string, j: Job)
    requires RecordOk(s, id, j)
    ensures j.id == id
  {
  }

  lemma HiddenKeepsWorker(s: System, id: string, save: Save)
    requires WorkerInv(s) && s.ready && !s.worker.Loading? && id in s.memory && s.memory[id].id == id && Terminal(s.memory[id].state)
    ensures WorkerInv(Replace(s, s.memory[id].(hidden := true), save))
  {
    hide PlanFits;
  }

  lemma LoadKeepsWorker(s: System, a: Step)
    requires Inv(s) && a.Load? && Enabled(s, a)
    ensures WorkerInv(Apply(s, a))
  {
    hide Records, UniqueKeys, Bounded, OneRunning, Executes, Attentive, RecordOk, Agrees, LoadRecord;
    assert s.worker.Loading? && Apply(s, a) == LoadRecord(s, a.id, a.save) && a.id in s.disk && a.id !in s.memory;
    hide Apply, Enabled;
    LoadedKeepsWorker(s, a.id, a.save);
  }

  lemma LoadedKeepsWorker(s: System, id: string, save: Save)
    requires Agrees(s) && s.worker.Loading? && id in s.disk && id !in s.memory
    ensures WorkerInv(LoadRecord(s, id, save))
  {
    hide Agrees, Executes, OneRunning, Attentive, LoadRecord;
    LoadedAgrees(s, id, save);
    var u := LoadRecord(s, id, save);
    AllOver(u);
  }

  lemma LoadedAgrees(s: System, id: string, save: Save)
    requires Agrees(s) && s.worker.Loading? && id in s.disk && id !in s.memory
    ensures Agrees(LoadRecord(s, id, save)) && LoadRecord(s, id, save).worker.Loading?
  {
    hide Loaded;
    LoadedIsTerminal(s, id);
  }

  /** While the journal is read, every record in memory is final. */
  lemma AllOver(u: System)
    requires Agrees(u) && u.worker.Loading?
    ensures Executes(u) && OneRunning(u) && Attentive(u)
  {
  }

  lemma LoadedIsTerminal(s: System, id: string)
    requires id in s.disk
    ensures Terminal(Loaded(s, id).state) && (Terminal(s.disk[id].state) ==> Loaded(s, id) == s.disk[id])
  {
  }

  lemma CrashKeepsWorker(s: System, a: Step)
    requires Inv(s) && a.Crash? && Enabled(s, a)
    ensures WorkerInv(Apply(s, a))
  {
    hide UniqueKeys, Bounded;
    hide Records, RecordOk;
  }

  lemma RenameKeepsWorker(s: System, a: Step)
    requires Inv(s) && a.Rename? && Enabled(s, a)
    ensures WorkerInv(Apply(s, a))
  {
    hide UniqueKeys, Bounded;
    hide Records, RecordOk;
  }

  /** `u` has the version `k` of one record; a save that failed leaves the system not ready. */
  ghost predicate Updated(s: System, u: System, k: Job, save: Save) {
    var saved := k.(updated := s.now);
    && k.id in s.memory
    && u.memory == s.memory[k.id := if save == Stored then saved else Broken(saved)]
    && u.disk == (if save == Lost then s.disk else s.disk[k.id := saved])
    && u.ready == (s.ready && save == Stored)
    && u.outputs == s.outputs && u.restored == s.restored && u.wake == s.wake && u.stopping == s.stopping
  }

  lemma UpdateEffect(s: System, a: Step)
    requires IsUpdate(a) && Enabled(s, a) && Version(s, a).id in s.memory
    ensures Updated(s, Apply(s, a), Version(s, a), a.save)
    ensures Apply(s, a).worker == WorkerAfter(s, a)
  {
    hide Enabled, Version, WorkerAfter, Persist, Updated;
    var k, w := Version(s, a), WorkerAfter(s, a);
    assert Apply(s, a) == Persist(s, k, a.save).(worker := w);
    hide Apply;
    PersistUpdates(s, k, a.save, w);
  }

  lemma PersistUpdates(s: System, k: Job, save: Save, w: Worker)
    requires k.id in s.memory
    ensures Updated(s, Persist(s, k, save).(worker := w), k, save)
  {
  }

  lemma UpdateKeepsAgreement(s: System, u: System, k: Job, save: Save)
    requires Agrees(s) && Updated(s, u, k, save) && !s.worker.Loading? && !u.worker.Loading?
    ensures Agrees(u)
  {
  }

  /** Only the stages, the cancel mark or the state of an idle job change. */
  lemma MarkKeepsWorker(s: System, u: System, k: Job, save: Save)
    requires WorkerInv(s) && Updated(s, u, k, save) && !s.worker.Loading?
    requires
      var j := s.memory[k.id];
      && k.published == j.published && k.intent == j.intent && k.request == j.request
      && (k.state == j.state || (j.state == Queued && Terminal(k.state)))
    requires s.worker.Executing? ==> u.worker.Executing? && u.worker == s.worker.(cancelled := u.worker.cancelled, verdict := u.worker.verdict)
    requires s.worker.Executing? ==> u.worker.verdict == s.worker.verdict || u.worker.verdict == Broke
    requires !s.worker.Executing? ==> u.worker == s.worker
    ensures WorkerInv(u)
  {
    UpdateKeepsAgreement(s, u, k, save);
    hide Agrees;
  }

  lemma MarkVersion(s: System, a: Step)
    requires OneRunning(s) && (a.Cancel? || a.Interrupt?) && Enabled(s, a)
    ensures
      var k, j := Version(s, a), s.memory[a.id];
      k == j.(cancelRequested := k.cancelRequested, state := k.state) && (k.state == j.state || (j.state == Queued && Terminal(k.state)))
    ensures !s.worker.Loading? && a.id in s.memory
    ensures WorkerAfter(s, a) == s.worker || (s.worker.Executing? && WorkerAfter(s, a) == s.worker.(cancelled := true))
  {
  }

  lemma MarkingKeepsWorker(s: System, a: Step)
    requires Inv(s) && (a.Cancel? || a.Interrupt?) && Enabled(s, a)
    ensures WorkerInv(Apply(s, a))
  {
    hide UniqueKeys, Bounded, Agrees, Executes, Attentive, OneRunning, Version, WorkerAfter, Apply;
    MarkVersion(s, a);
    hide Enabled;
    assert RecordOk(s, a.id, s.memory[a.id]);
    hide Records, RecordOk;
    UpdateEffect(s, a);
    MarkKeepsWorker(s, Apply(s, a), Version(s, a), a.save);
  }

  lemma StagingVersion(s: System, a: Step)
    requires (a.Stage? || a.Clean? || a.Checkpoint?) && Enabled(s, a)
    ensures s.worker.Executing? && s.worker.id in s.memory
    ensures Version(s, a) == s.memory[s.worker.id].(stages := Version(s, a).stages)
    ensures
      var w := WorkerAfter(s, a);
      w.Executing? && w == s.worker.(verdict := w.verdict) && (w.verdict == s.worker.verdict || w.verdict == Broke)
  {
  }

  lemma StagingKeepsWorker(s: System, a: Step)
    requires Inv(s) && (a.Stage? || a.Clean? || a.Checkpoint?) && Enabled(s, a)
    ensures WorkerInv(Apply(s, a))
  {
    hide Records, UniqueKeys, Bounded, Agrees, Executes, Attentive, OneRunning, RecordOk, Enabled, Version, WorkerAfter, Apply;
    StagingVersion(s, a);
    WorkersRecord(s);
    UpdateEffect(s, a);
    MarkKeepsWorker(s, Apply(s, a), Version(s, a), a.save);
  }

  lemma PickKeepsWorker(s: System, a: Step)
    requires Inv(s) && a.Pick? && Enabled(s, a)
    ensures WorkerInv(Apply(s, a))
  {
    assert RecordOk(s, a.id, s.memory[a.id]) && Sound(s.memory[a.id], a.id in s.restored);
    hide Records, UniqueKeys, Bounded, Agrees, Attentive, Executes, RecordOk;
    var u, k := Apply(s, a), Version(s, a);
    UpdateEffect(s, a);
    assert k == s.memory[a.id].(state := Running) && s.worker == Choosing && PlanFits(k.request, a.plan);
    assert u.worker == Executing(a.id, a.plan, Idle, if a.save != Stored then Broke else Going, false);
    hide Version, WorkerAfter, Enabled, Apply;
    UpdateKeepsAgreement(s, u, k, a.save);
    PickedKeepsWorker(s, u, k, a.save, a.plan);
  }

  lemma PickedKeepsWorker(s: System, u: System, k: Job, save: Save, plan: seq<string>)
    requires OneRunning(s) && Updated(s, u, k, save) && s.worker == Choosing
    requires k.state == Running && k.published == [] && k.intent.None? && PlanFits(k.request, plan)
    requires u.worker == Executing(k.id, plan, Idle, if save != Stored then Broke else Going, false)
    ensures Executes(u) && OneRunning(u) && Attentive(u)
  {
  }

  lemma ProgressKeepsWorker(s: System, u: System, k: Job, save: Save)
    requires Executes(s) && OneRunning(s) && Updated(s, u, k, save) && s.worker.Executing? && k.id == s.worker.id
    requires k.state == Running && k.request == s.memory[k.id].request && k.published <= s.worker.plan
    requires u.worker.Executing? && u.worker == s.worker.(phase := u.worker.phase, verdict := if save != Stored then Broke else Going)
    requires save == Stored && u.worker.phase == Idle ==> k.intent.None?
    requires save == Stored && u.worker.phase != Idle ==>
               u.worker.phase == Intended && |k.published| < |s.worker.plan| && k.intent == Some(s.worker.plan[|k.published|])
    ensures Executes(u) && OneRunning(u) && Attentive(u)
  {
  }

  lemma IntendVersion(s: System, a: Step)
    requires Inv(s) && a.Intend? && Enabled(s, a)
    ensures s.worker.Executing? && s.worker.id in s.memory
    ensures
      var k, j := Version(s, a), s.memory[s.worker.id];
      && j.state == Running && j.published <= s.worker.plan && |j.published| < |s.worker.plan|
      && k == j.(intent := Some(s.worker.plan[|j.published|]))
    ensures WorkerAfter(s, a) == s.worker.(phase := if a.save == Stored then Intended else Idle, verdict := if a.save != Stored then Broke else Going)
  {
    hide Records, UniqueKeys, Bounded, Agrees, Attentive, OneRunning, RecordOk;
  }

  lemma IntendKeepsWorker(s: System, a: Step)
    requires Inv(s) && a.Intend? && Enabled(s, a)
    ensures WorkerInv(Apply(s, a))
  {
    hide Records, UniqueKeys, Bounded, Agrees, Executes, Attentive, OneRunning, RecordOk, Enabled, Version, WorkerAfter, Apply;
    IntendVersion(s, a);
    WorkersRecord(s);
    UpdateEffect(s, a);
    UpdateKeepsAgreement(s, Apply(s, a), Version(s, a), a.save);
    ProgressKeepsWorker(s, Apply(s, a), Version(s, a), a.save);
  }

  lemma PublishVersion(s: System, a: Step)
    requires Inv(s) && a.Publish? && Enabled(s, a)
    ensures s.worker.Executing? && s.worker.id in s.memory
    ensures
      var k, j := Version(s, a), s.memory[s.worker.id];
      && j.state == Running && j.published <= s.worker.plan && |j.published| < |s.worker.plan|
      && k == j.(published := j.published + [s.worker.plan[|j.published|]], intent := None)
    ensures WorkerAfter(s, a) == s.worker.(phase := Idle, verdict := if a.save != Stored then Broke else Going)
  {
    hide Records, UniqueKeys, Bounded, Agrees, Attentive, OneRunning, RecordOk;
  }

  lemma PublishKeepsWorker(s: System, a: Step)
    requires Inv(s) && a.Publish? && Enabled(s, a)
    ensures WorkerInv(Apply(s, a))
  {
    hide Records, UniqueKeys, Bounded, Agrees, Executes, Attentive, OneRunning, RecordOk, Enabled, Version, WorkerAfter, Apply;
    PublishVersion(s, a);
    WorkersRecord(s);
    UpdateEffect(s, a);
    UpdateKeepsAgreement(s, Apply(s, a), Version(s, a), a.save);
    ProgressKeepsWorker(s, Apply(s, a), Version(s, a), a.save);
  }

  lemma EndVersion(s: System, a: Step)
    requires a.Finish? && Enabled(s, a)
    ensures s.worker.Executing? && Version(s, a).id == s.memory[s.worker.id].id && Terminal(Version(s, a).state) && WorkerAfter(s, a) == Choosing
  {
    hide FinalState;
  }

  lemma FinishKeepsWorker(s: System, a: Step)
    requires Inv(s) && a.Finish? && Enabled(s, a)
    ensures WorkerInv(Apply(s, a))
  {
    hide Records, UniqueKeys, Bounded, Agrees, Executes, Attentive, OneRunning, RecordOk, Enabled, Version, WorkerAfter, Apply;
    EndVersion(s, a);
    WorkersRecord(s);
    UpdateEffect(s, a);
    UpdateKeepsAgreement(s, Apply(s, a), Version(s, a), a.save);
    FinishedKeepsWorker(s, Apply(s, a), Version(s, a), a.save);
  }

  lemma FinishedKeepsWorker(s: System, u: System, k: Job, save: Save)
    requires OneRunning(s) && Updated(s, u, k, save) && s.worker.Executing? && s.worker.id == k.id
    requires Terminal(k.state) && u.worker == Choosing
    ensures Executes(u) && OneRunning(u) && Attentive(u)
  {
  }

  lemma StepKeepsWorker(s: System, a: Step)
    requires Inv(s) && Enabled(s, a)
    ensures WorkerInv(Apply(s, a))
  {
    hide Inv, Enabled, Apply, WorkerInv;
    match a
    case Submit(_, _) => SubmitKeepsWorker(s, a);
    case Collect(_, _) => CollectKeepsWorker(s, a);
    case Cancel(_, _) => MarkingKeepsWorker(s, a);
    case Hide(_, _) => HideKeepsWorker(s, a);
    case Pick(_, _, _) => PickKeepsWorker(s, a);
    case Stage(_, _) => StagingKeepsWorker(s, a);
    case Clean(_, _) => StagingKeepsWorker(s, a);
    case Checkpoint(_) => StagingKeepsWorker(s, a);
    case Intend(_) => IntendKeepsWorker(s, a);
    case Rename => RenameKeepsWorker(s, a);
    case Publish(_) => PublishKeepsWorker(s, a);
    case Finish(_, _, _) => FinishKeepsWorker(s, a);
    case Interrupt(_, _) => MarkingKeepsWorker(s, a);
    case Crash => CrashKeepsWorker(s, a);
    case Load(_, _) => LoadKeepsWorker(s, a);
    case _ => QuietStepKeepsWorker(s, a);
  }

  /*** Every run ***/

  lemma StepKeepsInv(s: System, a: Step)
    requires Inv(s) && Enabled(s, a)
    ensures Inv(Apply(s, a))
  {
    StepKeepsJournal(s, a);
    StepKeepsWorker(s, a);
    hide Records, UniqueKeys, Bounded, Agrees, Executes, OneRunning, Attentive, Enabled, Apply;
  }

  lemma {:induction false} RunKeepsInv(s: System, run: seq<Step>)
    requires Inv(s) && Legal(s, run)
    ensures Inv(Replay(s, run))
    decreases |run|
  {
    hide Inv, Enabled, Apply;
    if run == [] {
    } else {
      StepKeepsInv(s, run[0]);
      RunKeepsInv(Apply(s, run[0]), run[1..]);
    }
  }
}
