/** What every interleaving of the scheduler's sections keeps. */
module JobSchedulerSafety {
  import opened Prelude
  import opened JobScheduler

  /** The jobs whose permit is taken and not yet given back. */
  function Holding(phases: map<JobId, Phase>): set<JobId> {
    set id | id in phases && !Through(phases[id])
  }

  ghost predicate PermitsConserved(s: State) { s.free + |Holding(s.phases)| == s.capacity }

  /** A job is in the table until dropped, with the status its thread last recorded. */
  predicate StatusFits(job: Job, phase: Phase) {
    match phase
    case Admitted => job.status == Queued
    case Enqueued => job.status == Queued
    case Cancelled => job.status == Queued
    case Working => job.status == Running
    case Dropped => false
    case Gone => false
    case _ => !Active(job.status)
  }

  ghost predicate JobsFit(s: State) {
    && s.jobs.Keys <= s.phases.Keys
    && (forall id | id in s.phases && id !in s.jobs :: s.phases[id] in {Dropped, Gone})
    && (forall id | id in s.jobs :: id in s.phases && StatusFits(s.jobs[id], s.phases[id]))
  }

  /** The key map points to every queued or running job with a key, and only to jobs not yet cleared. */
  ghost predicate KeysPoint(s: State) {
    && (forall id | id in s.jobs && Active(s.jobs[id].status) && Keyed(s.jobs[id].key) ::
          s.jobs[id].key.value in s.active && s.active[s.jobs[id].key.value] == id)
    && (forall key | key in s.active ::
          && s.active[key] in s.jobs && s.active[key] in s.phases && s.jobs[s.active[key]].key == Some(key) && key != ""
          && s.phases[s.active[key]] in {Admitted, Enqueued, Working, Finished, Cancelled})
  }

  ghost predicate Inv(s: State) { PermitsConserved(s) && JobsFit(s) && KeysPoint(s) }

  /** A permit is held from admission to release, whatever the phase in between. */
  lemma HoldingCount(phases: map<JobId, Phase>, id: JobId, phase: Phase)
    requires id in phases ==> !Through(phases[id])
    requires id in phases || !Through(phase)
    ensures |Holding(phases[id := phase])| == |Holding(phases)| +
      (if id !in phases then 1 else if Through(phase) then -1 else 0)
  {
    var before, after := Holding(phases), Holding(phases[id := phase]);
    if Through(phase) {
      assert after == before - {id};
    } else {
      assert after == before + {id};
      if id in phases { assert before + {id} == before; }
    }
  }

  lemma StepKeepsPermits(s: State, op: Op)
    requires Inv(s) && Enabled(s, op)
    ensures PermitsConserved(Next(s, op))
  {
    hide JobsFit, KeysPoint, SetStatus, WithoutKey, Holding, Duplicate;
    match op
    case Submit(id, _, _) => HoldingCount(s.phases, id, Admitted);
    case Enqueue(id) => HoldingCount(s.phases, id, Enqueued);
    case Drop(id) => HoldingCount(s.phases, id, Dropped);
    case Start(id) => HoldingCount(s.phases, id, Working);
    case Finish(id, _) => HoldingCount(s.phases, id, Finished);
    case Clear(id) => HoldingCount(s.phases, id, Cleared);
    case Release(id) => HoldingCount(s.phases, id, if s.phases[id] == Dropped then Gone else Phase.Released);
    case Shutdown =>
    case Cancel(id) => HoldingCount(s.phases, id, Cancelled);
  }

  lemma StepKeepsJobs(s: State, op: Op)
    requires Inv(s) && Enabled(s, op)
    ensures JobsFit(Next(s, op))
  {
    hide PermitsConserved, Submitting, WithoutKey;
  }

  lemma StepKeepsKeys(s: State, op: Op)
    requires Inv(s) && Enabled(s, op)
    ensures KeysPoint(Next(s, op))
  {
    hide PermitsConserved, KeysPoint;
    match op
    case Submit(id, jobType, key) => SubmitKeepsKeys(s, id, jobType, key);
    case Drop(id) => ForgettingKeepsKeys(s, id, s.jobs - {id}, Dropped);
    case Clear(id) => ForgettingKeepsKeys(s, id, s.jobs, Cleared);
    case Release(id) => MovingKeepsKeys(s, id, s.jobs, if s.phases[id] == Dropped then Gone else Phase.Released, s.free + 1);
    case Enqueue(id) => MovingKeepsKeys(s, id, s.jobs, Enqueued, s.free);
    case Start(id) => MovingKeepsKeys(s, id, SetStatus(s.jobs, id, Running), Working, s.free);
    case Finish(id, outcome) => MovingKeepsKeys(s, id, SetStatus(s.jobs, id, outcome), Finished, s.free);
    case Cancel(id) => MovingKeepsKeys(s, id, s.jobs, Cancelled, s.free);
    case Shutdown => MovingNothingKeepsKeys(s);
  }

  lemma MovingNothingKeepsKeys(s: State)
    requires KeysPoint(s)
    ensures KeysPoint(s.(closed := true))
  {
  }

  lemma SubmitKeepsKeys(s: State, id: JobId, jobType: string, key: Option<Key>)
    requires Inv(s) && Enabled(s, Submit(id, jobType, key))
    ensures KeysPoint(Next(s, Submit(id, jobType, key)))
  {
    hide PermitsConserved;
  }

  /** A thread moving on without touching its key: live as before, or finished with its key still to clear. */
  lemma MovingKeepsKeys(s: State, id: JobId, jobs: map<JobId, Job>, phase: Phase, free: nat)
    requires KeysPoint(s) && JobsFit(s) && id in s.phases
    requires Through(phase) ==> s.phases[id] in {Cleared, Dropped}
    requires phase in {Admitted, Enqueued, Working, Finished, Cancelled, Released, Gone}
    requires jobs.Keys == s.jobs.Keys && forall other | other in jobs ::
      jobs[other].key == s.jobs[other].key && (Active(jobs[other].status) ==> Active(s.jobs[other].status))
    ensures KeysPoint(s.(free := free, jobs := jobs, phases := s.phases[id := phase]))
  {
    hide StatusFits;
  }

  lemma ForgettingKeepsKeys(s: State, id: JobId, jobs: map<JobId, Job>, phase: Phase)
    requires KeysPoint(s) && JobsFit(s) && id in s.jobs
    requires jobs == s.jobs - {id} || (jobs == s.jobs && !Active(s.jobs[id].status))
    ensures KeysPoint(s.(active := WithoutKey(s.active, s.jobs[id].key, id), jobs := jobs, phases := s.phases[id := phase]))
  {
    hide StatusFits;
  }

  lemma StepKeeps(s: State, op: Op)
    requires Inv(s) && Enabled(s, op)
    ensures Inv(Next(s, op))
  {
    StepKeepsPermits(s, op);
    StepKeepsJobs(s, op);
    StepKeepsKeys(s, op);
  }

  lemma {:induction false} Reachable(maxWorkers: nat, maxQueued: nat, ops: seq<Op>)
    requires Possible(Init(maxWorkers, maxQueued), ops)
    ensures Inv(After(Init(maxWorkers, maxQueued), ops))
    ensures After(Init(maxWorkers, maxQueued), ops).capacity == maxWorkers + maxQueued
  {
    var s := Init(maxWorkers, maxQueued);
    if ops == [] {
      assert Holding(s.phases) == {};
    } else {
      Reachable(maxWorkers, maxQueued, ops[..|ops| - 1]);
      StepKeeps(After(s, ops[..|ops| - 1]), ops[|ops| - 1]);
    }
  }

  // ----- what the scheduler promises, in every reachable state -----

  /** At most one queued or running job per key, and the key map points to it. */
  lemma OneActiveJobPerKey(maxWorkers: nat, maxQueued: nat, ops: seq<Op>, id: JobId, other: JobId)
    requires Possible(Init(maxWorkers, maxQueued), ops)
    requires var s := After(Init(maxWorkers, maxQueued), ops);
      && id in s.jobs && Active(s.jobs[id].status) && Keyed(s.jobs[id].key)
      && other in s.jobs && Active(s.jobs[other].status) && s.jobs[other].key == s.jobs[id].key
    ensures id == other
    ensures var s := After(Init(maxWorkers, maxQueued), ops);
      s.jobs[id].key.value in s.active && s.active[s.jobs[id].key.value] == id
  {
    hide After, Possible;
    Reachable(maxWorkers, maxQueued, ops);
  }

  /** A section of one job's thread, late or not, never drops or moves another job's key. */
  lemma CleanupSparesOthers(s: State, op: Op, key: Key)
    requires Enabled(s, op) && !op.Submit? && key in s.active
    requires (op.Clear? || op.Drop?) ==> s.active[key] != op.id
    ensures key in Next(s, op).active && Next(s, op).active[key] == s.active[key]
  {
  }

  /** A submission joins an existing job exactly when one is queued or running under its key. */
  lemma SubmissionJoins(s: State, id: JobId, jobType: string, key: Option<Key>)
    requires Inv(s)
    ensures Submitting(s, id, jobType, key).Existing? <==>
      Keyed(key) && exists other :: other in s.jobs && Active(s.jobs[other].status) && s.jobs[other].key == key
    ensures Submitting(s, id, jobType, key).Existing? ==>
      var reply := Submitting(s, id, jobType, key);
      reply.id in s.jobs && s.jobs[reply.id] == reply.job && reply.job.key == key && Active(reply.job.status)
  {
    hide PermitsConserved, JobsFit;
  }

  /** A submission is refused only when every permit is held, and the permits are never over-released. */
  lemma PermitsBound(maxWorkers: nat, maxQueued: nat, ops: seq<Op>, op: Op)
    requires Possible(Init(maxWorkers, maxQueued), ops) && Enabled(After(Init(maxWorkers, maxQueued), ops), op)
    ensures var s := After(Init(maxWorkers, maxQueued), ops);
      && s.free + |Holding(s.phases)| == maxWorkers + maxQueued
      && (op.Submit? && Submitting(s, op.id, op.jobType, op.key).QueueFull? ==> |Holding(s.phases)| == maxWorkers + maxQueued)
      && (op.Release? ==> s.free < maxWorkers + maxQueued)
  {
    hide After, Possible, Duplicate;
    Reachable(maxWorkers, maxQueued, ops);
    if op.Release? {
      assert op.id in Holding(After(Init(maxWorkers, maxQueued), ops).phases);
    }
  }

  /** A worker always finds its job, still queued. */
  lemma WorkerFindsItsJob(maxWorkers: nat, maxQueued: nat, ops: seq<Op>, id: JobId)
    requires Possible(Init(maxWorkers, maxQueued), ops) && InPhase(After(Init(maxWorkers, maxQueued), ops), id, Enqueued)
    ensures var s := After(Init(maxWorkers, maxQueued), ops);
      id in s.jobs && s.jobs[id].status == Queued
  {
    hide After, Possible;
    Reachable(maxWorkers, maxQueued, ops);
  }

  /** How far a thread has got: no section goes back. */
  function Progress(phase: Phase): nat {
    match phase
    case Admitted => 0
    case Enqueued => 1
    case Working => 2
    case Finished => 3
    case Cleared => 4
    case Dropped => 4
    case Cancelled => 5
    case Released => 6
    case Gone => 6
  }

  lemma {:induction false} PhasesOnlyAdvance(s: State, ops: seq<Op>, i: nat, j: nat, id: JobId)
    requires Possible(s, ops) && i <= j <= |ops|
    requires Possible(s, ops[..i]) && id in After(s, ops[..i]).phases
    ensures Possible(s, ops[..j]) && id in After(s, ops[..j]).phases
    ensures Progress(After(s, ops[..i]).phases[id]) <= Progress(After(s, ops[..j]).phases[id])
    decreases j
  {
    hide After, Possible, Enabled, Next, Progress;
    PrefixPossible(s, ops, j);
    if i < j {
      PhasesOnlyAdvance(s, ops, i, j - 1, id);
      PrefixPossible(s, ops, j - 1);
      StepAdvances(After(s, ops[..j - 1]), ops[j - 1], id);
    }
  }

  lemma StepAdvances(s: State, op: Op, id: JobId)
    requires Enabled(s, op) && id in s.phases
    ensures id in Next(s, op).phases && Progress(s.phases[id]) <= Progress(Next(s, op).phases[id])
  {
  }

  lemma {:induction false} PrefixPossible(s: State, ops: seq<Op>, k: nat)
    requires Possible(s, ops) && k <= |ops|
    ensures Possible(s, ops[..k])
    ensures k < |ops| ==> Enabled(After(s, ops[..k]), ops[k])
    ensures k < |ops| ==> Possible(s, ops[..k + 1]) && After(s, ops[..k + 1]) == Next(After(s, ops[..k]), ops[k])
    decreases |ops|
  {
    hide Enabled, Next;
    if k < |ops| {
      var before := ops[..|ops| - 1];
      if k < |before| {
        PrefixPossible(s, before, k);
        assert before[..k] == ops[..k] && before[..k + 1] == ops[..k + 1];
      } else {
        assert before == ops[..k] && ops[..k + 1] == ops;
      }
    } else {
      assert ops[..k] == ops;
    }
  }

  /** Every job gives its permit back at most once. */
  lemma ReleasesOnce(s: State, ops: seq<Op>, i: nat, j: nat)
    requires Possible(s, ops) && i < |ops| && j < |ops| && ops[i].Release? && ops[j].Release? && ops[i].id == ops[j].id
    ensures i == j
  {
    hide After, Possible;
    var first, last := if i <= j then i else j, if i <= j then j else i;
    PrefixPossible(s, ops, first);
    PrefixPossible(s, ops, last);
    if first < last {
      PhasesOnlyAdvance(s, ops, first + 1, last, ops[i].id);
    }
  }

  /** Once nobody is between sections, every permit is free again and no key is left behind. */
  lemma NothingLeaks(maxWorkers: nat, maxQueued: nat, ops: seq<Op>)
    requires Possible(Init(maxWorkers, maxQueued), ops)
    requires var s := After(Init(maxWorkers, maxQueued), ops); forall id | id in s.phases :: Through(s.phases[id])
    ensures var s := After(Init(maxWorkers, maxQueued), ops); s.free == maxWorkers + maxQueued && s.active == map[]
  {
    hide After, Possible;
    Reachable(maxWorkers, maxQueued, ops);
    var s := After(Init(maxWorkers, maxQueued), ops);
    assert Holding(s.phases) == {};
    if key :| key in s.active {
      assert false;
    }
  }

  lemma CancelledStep(s: State, op: Op, id: JobId)
    requires Inv(s) && Enabled(s, op) && InPhase(s, id, Cancelled)
    ensures InPhase(Next(s, op), id, Cancelled)
    ensures id in s.jobs && id in Next(s, op).jobs && Next(s, op).jobs[id] == s.jobs[id]
  {
    hide PermitsConserved, KeysPoint;
  }

  lemma CancelledHolds(s: State, id: JobId)
    requires Inv(s) && InPhase(s, id, Cancelled)
    ensures id in s.jobs && s.jobs[id].status == Queued && id in Holding(s.phases)
    ensures Keyed(s.jobs[id].key) ==> s.jobs[id].key.value in s.active && s.active[s.jobs[id].key.value] == id
  {
    hide PermitsConserved;
  }

  /** A job still waiting at shutdown stays queued for the rest of the run, and keeps its permit and its key. */
  lemma {:induction false} CancelledHoldsOn(maxWorkers: nat, maxQueued: nat, ops: seq<Op>, i: nat, j: nat, id: JobId)
    requires Possible(Init(maxWorkers, maxQueued), ops) && i <= j <= |ops|
    requires Possible(Init(maxWorkers, maxQueued), ops[..i]) && InPhase(After(Init(maxWorkers, maxQueued), ops[..i]), id, Cancelled)
    ensures Possible(Init(maxWorkers, maxQueued), ops[..j])
    ensures var before, s := After(Init(maxWorkers, maxQueued), ops[..i]), After(Init(maxWorkers, maxQueued), ops[..j]);
      && InPhase(s, id, Cancelled) && id in Holding(s.phases)
      && id in before.jobs && id in s.jobs && s.jobs[id] == before.jobs[id] && s.jobs[id].status == Queued
      && (Keyed(s.jobs[id].key) ==> s.jobs[id].key.value in s.active && s.active[s.jobs[id].key.value] == id)
    decreases j
  {
    hide After, Possible, Enabled, Next, Inv, Init, Holding;
    var start := Init(maxWorkers, maxQueued);
    PrefixPossible(start, ops, j);
    Reachable(maxWorkers, maxQueued, ops[..j]);
    if i < j {
      CancelledHoldsOn(maxWorkers, maxQueued, ops, i, j - 1, id);
      PrefixPossible(start, ops, j - 1);
      Reachable(maxWorkers, maxQueued, ops[..j - 1]);
      CancelledStep(After(start, ops[..j - 1]), ops[j - 1], id);
    }
    CancelledHolds(After(start, ops[..j]), id);
  }

  lemma OutcomeStep(s: State, op: Op, id: JobId)
    requires Inv(s) && Enabled(s, op) && id in s.jobs && !Active(s.jobs[id].status)
    ensures id in Next(s, op).jobs && Next(s, op).jobs[id] == s.jobs[id]
  {
    hide PermitsConserved, KeysPoint;
  }

  /** Once an outcome is recorded, the job stays in the table with it for the rest of the run. */
  lemma {:induction false} OutcomeIsFinal(maxWorkers: nat, maxQueued: nat, ops: seq<Op>, i: nat, j: nat, id: JobId)
    requires Possible(Init(maxWorkers, maxQueued), ops) && i <= j <= |ops| && Possible(Init(maxWorkers, maxQueued), ops[..i])
    requires var before := After(Init(maxWorkers, maxQueued), ops[..i]); id in before.jobs && !Active(before.jobs[id].status)
    ensures Possible(Init(maxWorkers, maxQueued), ops[..j])
    ensures var before, s := After(Init(maxWorkers, maxQueued), ops[..i]), After(Init(maxWorkers, maxQueued), ops[..j]);
      id in s.jobs && s.jobs[id] == before.jobs[id]
    decreases j
  {
    hide After, Possible, Enabled, Next, Inv, Init;
    var start := Init(maxWorkers, maxQueued);
    PrefixPossible(start, ops, j);
    if i < j {
      OutcomeIsFinal(maxWorkers, maxQueued, ops, i, j - 1, id);
      PrefixPossible(start, ops, j - 1);
      Reachable(maxWorkers, maxQueued, ops[..j - 1]);
      OutcomeStep(After(start, ops[..j - 1]), ops[j - 1], id);
    }
  }
}
