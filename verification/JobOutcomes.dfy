/** What the job table tells of a run: who was admitted as what, who ran, and with which outcome. */
module JobOutcomes {
  import opened Prelude
  import opened JobScheduler
  import opened JobSchedulerSafety

  /** Request m of the run submits this job, with this type and key, and admits it. */
  predicate AdmitsAt(s: State, ops: seq<Op>, m: nat, id: JobId, jobType: string, key: Option<Key>) {
    && m < |ops| && ops[m] == Submit(id, jobType, key)
    && Possible(s, ops[..m]) && Submitting(After(s, ops[..m]), id, jobType, key) == Accepted
  }

  ghost predicate Admits(s: State, ops: seq<Op>, id: JobId, jobType: string, key: Option<Key>) {
    exists m: nat :: AdmitsAt(s, ops, m, id, jobType, key)
  }

  ghost predicate HasFinished(ops: seq<Op>, id: JobId) { exists outcome :: Finish(id, outcome) in ops }

  /** The status a job's own sections have brought it to. */
  ghost predicate StatusTells(ops: seq<Op>, id: JobId, status: Status) {
    && (status == Queued <==> Start(id) !in ops)
    && (status == Running <==> Start(id) in ops && !HasFinished(ops, id))
    && (forall outcome | !Active(outcome) :: status == outcome <==> Finish(id, outcome) in ops)
  }

  /** Sections happen only to jobs admitted, a dropped job never starts, and outcomes are final statuses. */
  ghost predicate SectionsFit(s: State, ops: seq<Op>, id: JobId) {
    && (Start(id) in ops || Drop(id) in ops ==> id in s.phases)
    && (forall outcome | Finish(id, outcome) in ops :: Start(id) in ops && !Active(outcome))
    && (Drop(id) in ops <==> id in s.phases && id !in s.jobs)
  }

  ghost predicate Told(start: State, ops: seq<Op>, s: State, id: JobId) {
    && (id in s.phases <==> exists jobType, key :: Admits(start, ops, id, jobType, key))
    && (id in s.jobs ==> StatusTells(ops, id, s.jobs[id].status) && forall jobType, key ::
          Admits(start, ops, id, jobType, key) <==> s.jobs[id].jobType == jobType && s.jobs[id].key == key)
    && SectionsFit(s, ops, id)
  }

  lemma AdmitsMore(start: State, ops: seq<Op>, op: Op, id: JobId, jobType: string, key: Option<Key>)
    requires Possible(start, ops + [op])
    ensures Possible(start, ops)
    ensures Admits(start, ops + [op], id, jobType, key) <==>
      Admits(start, ops, id, jobType, key)
      || (op == Submit(id, jobType, key) && Submitting(After(start, ops), id, jobType, key) == Accepted)
  {
    hide After, Submitting;
    var all := ops + [op];
    assert all[..|ops|] == ops;
    hide Possible;
    forall m: nat | m < |ops| ensures AdmitsAt(start, all, m, id, jobType, key) <==> AdmitsAt(start, ops, m, id, jobType, key) {
      assert all[..m] == ops[..m];
    }
    assert AdmitsAt(start, all, |ops|, id, jobType, key) <==>
      op == Submit(id, jobType, key) && Submitting(After(start, ops), id, jobType, key) == Accepted;
    forall m: nat | m > |ops| ensures !AdmitsAt(start, all, m, id, jobType, key) && !AdmitsAt(start, ops, m, id, jobType, key) { }
    assert !AdmitsAt(start, ops, |ops|, id, jobType, key);
    hide AdmitsAt;
    if Admits(start, ops, id, jobType, key) {
      var m: nat :| AdmitsAt(start, ops, m, id, jobType, key);
      assert AdmitsAt(start, all, m, id, jobType, key);
    }
  }

  /** One section, as the table shows it. */
  lemma TableMoves(s: State, op: Op, id: JobId)
    requires Inv(s) && Enabled(s, op)
    ensures var after := Next(s, op);
      var admitted := op.Submit? && op.id == id && Submitting(s, id, op.jobType, op.key) == Accepted;
      && (id in after.phases <==> id in s.phases || admitted)
      && (admitted ==> id !in s.phases && id !in s.jobs)
      && (id in after.jobs <==> (id in s.jobs && op != Drop(id)) || admitted)
      && (admitted ==> after.jobs[id] == Job(op.jobType, Queued, op.key))
      && (id in after.jobs && !admitted ==> after.jobs[id] == s.jobs[id].(status :=
            if op == Start(id) then Running else if op.Finish? && op.id == id then op.outcome else s.jobs[id].status))
      && (op == Drop(id) ==> id in s.jobs && s.jobs[id].status == Queued)
      && (op == Start(id) ==> id in s.jobs && s.jobs[id].status == Queued)
      && (op.Finish? && op.id == id ==> id in s.jobs && s.jobs[id].status == Running && !Active(op.outcome))
  {
    hide PermitsConserved, KeysPoint, Duplicate, WithoutKey;
  }

  lemma StatusMoves(ops: seq<Op>, op: Op, id: JobId, status: Status)
    requires StatusTells(ops, id, status) && forall outcome | Finish(id, outcome) in ops :: Start(id) in ops
    requires op == Start(id) ==> status == Queued
    requires op.Finish? && op.id == id ==> status == Running && !Active(op.outcome)
    ensures StatusTells(ops + [op], id, if op == Start(id) then Running else if op.Finish? && op.id == id then op.outcome else status)
  {
    assert forall x :: x in ops + [op] <==> x in ops || x == op;
    var after := if op == Start(id) then Running else if op.Finish? && op.id == id then op.outcome else status;
    if op.Finish? && op.id == id {
      assert HasFinished(ops + [op], id);
      forall outcome | !Active(outcome) ensures after == outcome <==> Finish(id, outcome) in ops + [op] {
        assert status != outcome;
      }
    } else {
      assert HasFinished(ops + [op], id) <==> HasFinished(ops, id) by {
        if outcome :| Finish(id, outcome) in ops { assert Finish(id, outcome) in ops + [op]; }
      }
      if op == Start(id) {
        forall outcome ensures Finish(id, outcome) !in ops { }
      }
    }
  }

  /**
   In any run the table tells exactly what happened: an id is known if it was admitted, found unless it was then
   dropped, with the type and key it was submitted with; it is queued until its start, running until its finish,
   and from then on has the outcome its operation had.
   */
  lemma {:induction false} TableTells(maxWorkers: nat, maxQueued: nat, ops: seq<Op>, id: JobId)
    requires Possible(Init(maxWorkers, maxQueued), ops)
    ensures Told(Init(maxWorkers, maxQueued), ops, After(Init(maxWorkers, maxQueued), ops), id)
  {
    var start := Init(maxWorkers, maxQueued);
    if ops == [] {
      NothingTold(start, id);
    } else {
      var before, op := ops[..|ops| - 1], ops[|ops| - 1];
      assert ops == before + [op];
      TableTells(maxWorkers, maxQueued, before, id);
      Reachable(maxWorkers, maxQueued, before);
      hide After, Possible, Inv, Told, Enabled, Next, Init;
      StepTold(start, before, op, After(start, before), id);
    }
  }

  lemma StepTold(start: State, before: seq<Op>, op: Op, s: State, id: JobId)
    requires Possible(start, before + [op]) && Possible(start, before) && s == After(start, before)
    requires Inv(s) && Enabled(s, op) && Told(start, before, s, id)
    ensures Told(start, before + [op], Next(s, op), id)
  {
    hide After, Possible, Inv, Enabled, Next, Submitting, Admits, StatusTells, SectionsFit, JobsFit;
    TableMoves(s, op, id);
    forall jobType, key
      ensures Admits(start, before + [op], id, jobType, key) <==>
        Admits(start, before, id, jobType, key)
        || (op == Submit(id, jobType, key) && Submitting(s, id, jobType, key) == Accepted)
    {
      AdmitsMore(start, before, op, id, jobType, key);
    }
    SectionsMove(before, op, s, id);
    if id in Next(s, op).jobs {
      if id in s.jobs {
        assert forall outcome | Finish(id, outcome) in before :: Start(id) in before by { StartedFirst(before, s, id); }
        StatusMoves(before, op, id, s.jobs[id].status);
      } else { NewStatus(before, op, s, id); }
    }
  }

  lemma StartedFirst(ops: seq<Op>, s: State, id: JobId)
    requires SectionsFit(s, ops, id)
    ensures forall outcome | Finish(id, outcome) in ops :: Start(id) in ops
  {
  }

  lemma NewStatus(before: seq<Op>, op: Op, s: State, id: JobId)
    requires SectionsFit(s, before, id) && id !in s.phases && op.Submit?
    ensures StatusTells(before + [op], id, Queued)
  {
    assert forall x :: x in before + [op] <==> x in before || x == op;
    forall outcome ensures Finish(id, outcome) !in before { }
  }

  lemma SectionsMove(before: seq<Op>, op: Op, s: State, id: JobId)
    requires Inv(s) && Enabled(s, op) && SectionsFit(s, before, id)
    requires id in s.jobs ==> StatusTells(before, id, s.jobs[id].status)
    ensures SectionsFit(Next(s, op), before + [op], id)
  {
    hide Submitting, StatusFits, Next, Enabled, PermitsConserved, KeysPoint;
    TableMoves(s, op, id);
    assert forall x :: x in before + [op] <==> x in before || x == op;
    forall outcome | Finish(id, outcome) in before ensures Start(id) in before && !Active(outcome) { }
  }

  /** Once an operation has ended, its job is found at every later moment, as submitted and with this very outcome. */
  lemma {:induction false} OutcomeIsTheOperations(maxWorkers: nat, maxQueued: nat, ops: seq<Op>, k: nat, id: JobId, outcome: Status)
    requires Possible(Init(maxWorkers, maxQueued), ops) && k < |ops| && ops[k] == Finish(id, outcome)
    ensures var s := After(Init(maxWorkers, maxQueued), ops);
      && id in s.jobs && s.jobs[id].status == outcome
      && Admits(Init(maxWorkers, maxQueued), ops, id, s.jobs[id].jobType, s.jobs[id].key)
  {
    hide After, Possible, Init, Admits;
    TableTells(maxWorkers, maxQueued, ops, id);
    Reachable(maxWorkers, maxQueued, ops);
    assert Finish(id, outcome) in ops;
    FinishedIsThere(maxWorkers, maxQueued, ops, k, id);
  }

  /** A job that has finished was not dropped. */
  lemma {:induction false} FinishedIsThere(maxWorkers: nat, maxQueued: nat, ops: seq<Op>, k: nat, id: JobId)
    requires Possible(Init(maxWorkers, maxQueued), ops) && k < |ops| && ops[k].Finish? && ops[k].id == id
    ensures id in After(Init(maxWorkers, maxQueued), ops).jobs
  {
    var start := Init(maxWorkers, maxQueued);
    hide After, Possible, Init, Next, Enabled;
    PrefixPossible(start, ops, k);
    Reachable(maxWorkers, maxQueued, ops[..k]);
    TableMoves(After(start, ops[..k]), ops[k], id);
    OutcomeIsFinal(maxWorkers, maxQueued, ops, k + 1, |ops|, id);
    assert ops[..|ops|] == ops;
  }

  /** No job has an outcome that its operation did not have. */
  lemma {:induction false} NoOtherOutcome(maxWorkers: nat, maxQueued: nat, ops: seq<Op>, id: JobId)
    requires Possible(Init(maxWorkers, maxQueued), ops)
    requires id in After(Init(maxWorkers, maxQueued), ops).jobs && !Active(After(Init(maxWorkers, maxQueued), ops).jobs[id].status)
    ensures Finish(id, After(Init(maxWorkers, maxQueued), ops).jobs[id].status) in ops
  {
    hide After, Possible, Init, Admits, SectionsFit;
    TableTells(maxWorkers, maxQueued, ops, id);
  }

  /** What a submission answers, in terms of the jobs: join an active one under its key, else wait for a permit. */
  lemma {:induction false} SubmitAnswers(maxWorkers: nat, maxQueued: nat, ops: seq<Op>, id: JobId, jobType: string, key: Option<Key>)
    requires Possible(Init(maxWorkers, maxQueued), ops)
    ensures var s := After(Init(maxWorkers, maxQueued), ops);
      var joins := Keyed(key) && exists other :: other in s.jobs && Active(s.jobs[other].status) && s.jobs[other].key == key;
      var reply := Submitting(s, id, jobType, key);
      && (reply.Existing? <==> joins)
      && (reply.QueueFull? <==> !joins && |Holding(s.phases)| == maxWorkers + maxQueued)
      && (reply.Accepted? <==> !joins && |Holding(s.phases)| < maxWorkers + maxQueued)
  {
    hide After, Possible, Duplicate, Holding, JobsFit, KeysPoint;
    Reachable(maxWorkers, maxQueued, ops);
    SubmissionJoins(After(Init(maxWorkers, maxQueued), ops), id, jobType, key);
  }

  lemma NothingTold(start: State, id: JobId)
    requires start.phases == map[] && start.jobs == map[]
    ensures Told(start, [], start, id)
  {
  }
}
