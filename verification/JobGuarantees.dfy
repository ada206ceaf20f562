/** What the job system promises, as consequences of the invariant for every run. */
module JobGuarantees {
  import opened Basics
  import opened JobProtocol
  import opened JobInvariants

  lemma Reachable(s: System, run: seq<Step>)
    requires Initial(s) && Legal(s, run)
    ensures Inv(Replay(s, run))
  {
    hide Inv;
    InitialInv(s);
    RunKeepsInv(s, run);
  }

  /** Write-ahead journal.  At every point of every run, and so after every crash, whatever a
      job has made visible is named by its durable record, as published or as intended; and
      whatever the record calls published is visible. */
  lemma OutputsAreJournaled(s: System, run: seq<Step>, id: string)
    requires Initial(s) && Legal(s, run) && id in Replay(s, run).disk
    ensures
      var u := Replay(s, run);
      && (forall path :: path in Outputs(u, id) ==> path in u.disk[id].published || u.disk[id].intent == Some(path))
      && (forall path :: path in u.disk[id].published ==> path in Outputs(u, id))
  {
    Reachable(s, run);
    assert RecordOk(Replay(s, run), id, Replay(s, run).disk[id]);
  }

  /** What a final state, in memory or on disk, says about the outputs of a job.  `restored`
      records are the unfinished ones a restart has marked as interrupted. */
  lemma FinalStatesAreTrue(s: System, run: seq<Step>, j: Job)
    requires Initial(s) && Legal(s, run)
    requires
      var u := Replay(s, run);
      (j.id in u.memory && u.memory[j.id] == j) || (j.id in u.disk && u.disk[j.id] == j)
    ensures
      var u := Replay(s, run);
      && (j.state == Succeeded ==> j.intent.None? && (j.request.kind != Extract ==> AreOutputsFor(j.request, j.published)))
      && (j.state == State.Failed || j.state == State.Cancelled || (j.state == State.Interrupted && j.id !in u.restored) ==>
            Outputs(u, j.id) == {})
  {
    hide Initial, Legal, Replay, RecordOk, UniqueKeys, Bounded, Agrees, Executes, OneRunning, Attentive, AreOutputsFor;
    Reachable(s, run);
    FinalStateIsTrue(Replay(s, run), j);
    PlanIsOutputs(j.request);
  }

  lemma FinalStateIsTrue(u: System, j: Job)
    requires RecordOk(u, j.id, j)
    ensures j.state == Succeeded ==> j.intent.None? && (j.request.kind != Extract ==> j.published == PlannedOutputs(j.request))
    ensures j.state == State.Failed || j.state == State.Cancelled || (j.state == State.Interrupted && j.id !in u.restored) ==>
              Outputs(u, j.id) == {}
  {
    if j.published == [] && j.intent.None? {
      assert forall path :: path in Outputs(u, j.id) ==> path in j.published;
    }
  }

  /** A queued job is never forgotten: an idle worker has a wake-up waiting or is being stopped,
      and a stopped worker leaves nothing queued or running. */
  lemma NoJobIsForgotten(s: System, run: seq<Step>, id: string)
    requires Initial(s) && Legal(s, run)
    requires id in Replay(s, run).memory && !Terminal(Replay(s, run).memory[id].state)
    ensures
      var u := Replay(s, run);
      && !u.worker.Stopped? && !u.worker.Loading?
      && (u.memory[id].state == Queued && u.worker.Waiting? ==> u.wake || u.stopping)
      && (u.memory[id].state == Running ==> u.worker.Executing? && u.worker.id == id)
  {
    Reachable(s, run);
  }

  /** Each idempotency key names at most one job, before and after any restart. */
  lemma KeysStayUnique(s: System, run: seq<Step>, a: string, b: string)
    requires Initial(s) && Legal(s, run)
    requires
      var u := Replay(s, run);
      (a in u.memory && b in u.memory && SameKey(u.memory[a], u.memory[b])) || (a in u.disk && b in u.disk && SameKey(u.disk[a], u.disk[b]))
    ensures a == b
  {
    var u := Replay(s, run);
    Reachable(s, run);
    var j := if a in u.memory && b in u.memory && SameKey(u.memory[a], u.memory[b]) then u.memory[a] else u.disk[a];
    assert KeyAt(u, a, j.scope, j.key) && KeyAt(u, b, j.scope, j.key);
  }

  /** The quotas hold in memory and on disk, so reading the journal back after a crash never
      runs into the limit on records. */
  lemma QuotasHold(s: System, run: seq<Step>, scope: string)
    requires Initial(s) && Legal(s, run)
    ensures
      var u := Replay(s, run);
      && |u.memory| <= 1000 && |u.disk| <= 1000
      && |Unfinished(u.memory)| <= 64 && |Owned(u.memory, scope)| <= 16
      && (forall id, save :: u.worker.Loading? && id in u.disk && id !in u.memory ==> Enabled(u, Load(id, save)))
  {
    hide Initial, Legal, Replay, Records, UniqueKeys, Agrees, Executes, OneRunning, Attentive, Enabled, Unfinished, Owned;
    var u := Replay(s, run);
    Reachable(s, run);
    SubsetSize(u.memory.Keys, u.memory.Keys + u.disk.Keys);
    SubsetSize(u.disk.Keys, u.memory.Keys + u.disk.Keys);
    forall id, save | u.worker.Loading? && id in u.disk && id !in u.memory
      ensures Enabled(u, Load(id, save))
    {
      LoadIsEnabled(u, id, save);
    }
  }

  lemma LoadIsEnabled(u: System, id: string, save: Save)
    requires |u.memory.Keys + u.disk.Keys| <= MAX_RECORDS && u.worker.Loading? && id in u.disk && id !in u.memory
    ensures Enabled(u, Load(id, save))
  {
    SubsetSize(u.memory.Keys + {id}, u.memory.Keys + u.disk.Keys);
  }

  /** The job is over, or was never accepted, and the worker is not at it. */
  predicate Over(s: System, id: string) {
    && (id in s.memory ==> Terminal(s.memory[id].state))
    && !(s.worker.Executing? && s.worker.id == id)
  }

  lemma OnlyPickEngages(s: System, a: Step)
    requires IsUpdate(a) && Enabled(s, a)
    ensures a.Pick? ==> a.id in s.memory && s.memory[a.id].state == Queued
    ensures WorkerAfter(s, a).Executing? ==>
              if a.Pick? then WorkerAfter(s, a).id == a.id else s.worker.Executing? && WorkerAfter(s, a).id == s.worker.id
  {
  }

  lemma UpdateKeepsOver(s: System, a: Step, id: string)
    requires Inv(s) && Over(s, id) && IsUpdate(a) && Enabled(s, a)
    ensures Over(Apply(s, a), id)
    ensures a.Pick? ==> a.id != id
  {
    hide Inv, RecordOk, Enabled, Version, WorkerAfter, Apply;
    OnlyPickEngages(s, a);
    VersionUpdates(s, a);
    UpdateEffect(s, a);
  }

  lemma SubmitKeepsOver(s: System, a: Step, id: string)
    requires Inv(s) && Over(s, id) && Enabled(s, a) && a.Submit?
    requires a.job.id != id
    ensures Over(Apply(s, a), id)
  {
    hide Inv, RecordOk, Add, Replace, LoadRecord;
    assert Apply(s, a).worker == s.worker;
    hide Enabled, Apply;
    SubmitEffect(s, a);
  }

  lemma HideKeepsOver(s: System, a: Step, id: string)
    requires Inv(s) && Over(s, id) && Enabled(s, a) && a.Hide?
    ensures Over(Apply(s, a), id)
  {
    assert RecordOk(s, a.id, s.memory[a.id]);
    hide Inv, RecordOk, Add, Replace, LoadRecord;
    assert Apply(s, a).worker == s.worker;
    hide Enabled, Apply;
    HideEffect(s, a);
  }

  lemma LoadKeepsOver(s: System, a: Step, id: string)
    requires Inv(s) && Over(s, id) && Enabled(s, a) && a.Load?
    ensures Over(Apply(s, a), id)
  {
    hide Inv, RecordOk, Add, Replace, LoadRecord;
    assert Apply(s, a).worker == s.worker;
    hide Enabled, Apply;
    LoadEffect(s, a);
  }

  lemma StepKeepsOver(s: System, a: Step, id: string)
    requires Inv(s) && Over(s, id) && Enabled(s, a)
    requires a.Submit? ==> a.job.id != id
    ensures Inv(Apply(s, a)) && Over(Apply(s, a), id)
    ensures a.Pick? ==> a.id != id
  {
    hide Inv, Version, WorkerAfter, Add, Replace, LoadRecord, Persist;
    StepKeepsInv(s, a);
    if IsUpdate(a) {
      UpdateKeepsOver(s, a, id);
    } else if a.Submit? {
      SubmitKeepsOver(s, a, id);
    } else if a.Hide? {
      HideKeepsOver(s, a, id);
    } else if a.Load? {
      LoadKeepsOver(s, a, id);
    }
  }

  /** A job that is over, such as one cancelled while it was queued, never starts: not later,
      not after a failed save, not after a restart. */
  lemma {:induction false} OverJobsNeverStart(s: System, run: seq<Step>, id: string)
    requires Inv(s) && Over(s, id) && Legal(s, run)
    requires forall k :: 0 <= k < |run| && run[k].Submit? ==> run[k].job.id != id
    ensures forall k :: 0 <= k < |run| && run[k].Pick? ==> run[k].id != id
    ensures Over(Replay(s, run), id)
    decreases |run|
  {
    hide Inv, Enabled, Apply, Over;
    if run == [] {
    } else {
      StepKeepsOver(s, run[0], id);
      OverJobsNeverStart(Apply(s, run[0]), run[1..], id);
      forall k | 0 <= k < |run| && run[k].Pick?
        ensures run[k].id != id
      {
        assert k > 0 ==> run[k] == run[1..][k - 1];
      }
    }
  }

  lemma CancelledWhileQueued(s: System, id: string, save: Save)
    requires Inv(s) && id in s.memory && s.memory[id].state == Queued && Enabled(s, Cancel(id, save))
    ensures Over(Apply(s, Cancel(id, save)), id)
  {
    var a := Cancel(id, save);
    hide Agrees, UniqueKeys, Bounded, Executes, OneRunning, Attentive, RecordOk, Version, WorkerAfter, Enabled, Apply;
    QueuedVersion(s, id, save);
    assert RecordOk(s, id, s.memory[id]);
    QueuedIsIdle(s, id);
    UpdateEffect(s, a);
  }

  lemma QueuedVersion(s: System, id: string, save: Save)
    requires Enabled(s, Cancel(id, save)) && s.memory[id].state == Queued
    ensures Version(s, Cancel(id, save)) == s.memory[id].(cancelRequested := true, state := State.Cancelled)
    ensures !(s.worker.Executing? && s.worker.id == id) ==> WorkerAfter(s, Cancel(id, save)) == s.worker
  {
  }

  lemma QueuedIsIdle(s: System, id: string)
    requires Inv(s) && id in s.memory && s.memory[id].state == Queued
    ensures !(s.worker.Executing? && s.worker.id == id) && s.memory[id].id == id
  {
    hide UniqueKeys, Bounded, Agrees, OneRunning, Attentive, Journaled, Sound;
  }
}
