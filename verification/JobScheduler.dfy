/**
 The background job scheduler as a state machine over its atomic sections.

 Submitting and running a job are each several locked sections with anything in between. phases
 says how far each job's own thread has got; it is what a run is about, not a field of the source.
 Operations raise only Exception, and the executor either takes a job or raises without taking it.
 */
module JobScheduler {
  import opened Prelude

  type JobId = string
  type Key = string

  datatype Status = Queued | Running | Succeeded(result: string) | Failed(error: string)
  datatype Job = Job(jobType: string, status: Status, key: Option<Key>)

  datatype Phase =
    | Admitted   // in the table, not yet handed to the executor
    | Enqueued   // waiting for a worker
    | Working    // the operation is running
    | Finished   // its outcome is recorded, its key not yet cleared
    | Cleared    // its key cleared, its permit not yet released
    | Dropped    // refused by the executor and forgotten, its permit not yet released
    | Cancelled  // still waiting when the scheduler was shut down
    | Released   // its permit given back
    | Gone       // refused and forgotten, its permit given back

  datatype State = State(
    capacity: nat, free: nat, jobs: map<JobId, Job>, active: map<Key, JobId>, phases: map<JobId, Phase>, closed: bool)

  datatype SubmitReply = Existing(id: JobId, job: Job) | QueueFull | Accepted

  function Init(maxWorkers: nat, maxQueued: nat): State {
    State(maxWorkers + maxQueued, maxWorkers + maxQueued, map[], map[], map[], false)
  }

  /** A key that counts: None and the empty string do not. */
  predicate Keyed(key: Option<Key>) { key.Some? && key.value != "" }

  predicate Active(status: Status) { status in {Queued, Running} }

  /** The queued or running job the key map points to. */
  function Duplicate(jobs: map<JobId, Job>, active: map<Key, JobId>, key: Option<Key>): Option<JobId> {
    if Keyed(key) && key.value in active && active[key.value] in jobs && Active(jobs[active[key.value]].status)
    then Some(active[key.value]) else None
  }

  function WithoutKey(active: map<Key, JobId>, key: Option<Key>, id: JobId): map<Key, JobId> {
    if Keyed(key) && key.value in active && active[key.value] == id then active - {key.value} else active
  }

  /** The thread is through. */
  predicate Through(phase: Phase) { phase in {Released, Gone} }

  function Submitting(s: State, id: JobId, jobType: string, key: Option<Key>): SubmitReply {
    var duplicate := Duplicate(s.jobs, s.active, key);
    if duplicate.Some? then Existing(duplicate.value, s.jobs[duplicate.value])
    else if s.free == 0 then QueueFull
    else Accepted
  }

  datatype Op =
    | Submit(id: JobId, jobType: string, key: Option<Key>)
    | Enqueue(id: JobId)
    | Drop(id: JobId)
    | Start(id: JobId)
    | Finish(id: JobId, outcome: Status)
    | Clear(id: JobId)
    | Release(id: JobId)
    | Shutdown
    | Cancel(id: JobId)

  predicate InPhase(s: State, id: JobId, phase: Phase) { id in s.phases && s.phases[id] == phase }

  /** What may happen next: a new submission under a new id, or the next section of some job's thread. */
  predicate Enabled(s: State, op: Op) {
    match op
    case Submit(id, _, _) => id !in s.phases
    case Enqueue(id) => InPhase(s, id, Admitted) && !s.closed
    case Drop(id) => InPhase(s, id, Admitted)
    case Start(id) => InPhase(s, id, Enqueued)
    case Finish(id, outcome) => InPhase(s, id, Working) && !Active(outcome)
    case Clear(id) => InPhase(s, id, Finished)
    case Release(id) => InPhase(s, id, Cleared) || InPhase(s, id, Dropped)
    case Shutdown => true
    case Cancel(id) => InPhase(s, id, Enqueued) && s.closed
  }

  function SetStatus(jobs: map<JobId, Job>, id: JobId, status: Status): map<JobId, Job> {
    if id in jobs then jobs[id := jobs[id].(status := status)] else jobs
  }

  function Next(s: State, op: Op): State
    requires Enabled(s, op)
  {
    match op
    case Submit(id, jobType, key) =>
      if !Submitting(s, id, jobType, key).Accepted? then s else
        s.(free := s.free - 1, jobs := s.jobs[id := Job(jobType, Queued, key)],
          active := if Keyed(key) then s.active[key.value := id] else s.active,
          phases := s.phases[id := Admitted])
    case Enqueue(id) => s.(phases := s.phases[id := Enqueued])
    case Drop(id) =>
      s.(active := if id in s.jobs then WithoutKey(s.active, s.jobs[id].key, id) else s.active,
        jobs := s.jobs - {id}, phases := s.phases[id := Dropped])
    case Start(id) => s.(jobs := SetStatus(s.jobs, id, Running), phases := s.phases[id := Working])
    case Finish(id, outcome) => s.(jobs := SetStatus(s.jobs, id, outcome), phases := s.phases[id := Finished])
    case Clear(id) =>
      s.(active := if id in s.jobs then WithoutKey(s.active, s.jobs[id].key, id) else s.active,
        phases := s.phases[id := Cleared])
    case Release(id) => s.(free := s.free + 1, phases := s.phases[id := if s.phases[id] == Dropped then Gone else Phase.Released])
    case Shutdown => s.(closed := true)
    case Cancel(id) => s.(phases := s.phases[id := Cancelled])
  }

  /** The interleaving is possible: each section is enabled where it stands. */
  predicate Possible(s: State, ops: seq<Op>)
    decreases |ops|, 0
  {
    ops == [] || (Possible(s, ops[..|ops| - 1]) && Enabled(After(s, ops[..|ops| - 1]), ops[|ops| - 1]))
  }

  function After(s: State, ops: seq<Op>): State
    requires Possible(s, ops)
    decreases |ops|, 1
  {
    if ops == [] then s else Next(After(s, ops[..|ops| - 1]), ops[|ops| - 1])
  }
}
