/** The scheduler object: one method per locked section, in the order a job's threads go through them. */
module SchedulerObject {
  import opened Prelude
  import opened JobScheduler
  import opened JobSchedulerSafety

  class Scheduler {
    const capacity: nat
    var free: nat
    var jobs: map<JobId, Job>
    var activeDedupeKeys: map<Key, JobId>
    ghost var phases: map<JobId, Phase>
    ghost var closed: bool

    ghost function Now(): State
      reads this
    {
      State(capacity, free, jobs, activeDedupeKeys, phases, closed)
    }

    ghost predicate Valid()
      reads this
    {
      Inv(Now())
    }

    /** A scheduler, unless the counts make no sense: then None, for the source's ValueError. */
    static method Create(maxWorkers: int := 2, maxQueued: int := 8) returns (made: Option<Scheduler>)
      ensures made.None? <==> maxWorkers < 1 || maxQueued < 0
      ensures made.Some? ==> fresh(made.value) && made.value.Valid() && made.value.Now() == Init(maxWorkers, maxQueued)
    {
      if maxWorkers < 1 || maxQueued < 0 {
        return None;
      }
      var scheduler := new Scheduler(maxWorkers, maxQueued);
      made := Some(scheduler);
    }

    constructor (maxWorkers: nat, maxQueued: nat)
      ensures Valid() && Now() == Init(maxWorkers, maxQueued)
    {
      capacity, free := maxWorkers + maxQueued, maxWorkers + maxQueued;
      jobs, activeDedupeKeys, phases, closed := map[], map[], map[], false;
      new;
      Reachable(maxWorkers, maxQueued, []);
    }

    /** The first section of submit. */
    method Submit(id: JobId, jobType: string, dedupeKey: Option<Key>) returns (reply: SubmitReply)
      requires Valid() && Enabled(Now(), Op.Submit(id, jobType, dedupeKey))
      modifies this
      ensures reply == Submitting(old(Now()), id, jobType, dedupeKey)
      ensures Now() == Next(old(Now()), Op.Submit(id, jobType, dedupeKey))
      ensures Valid()
    {
      hide Inv;
      StepKeeps(Now(), Op.Submit(id, jobType, dedupeKey));
      if dedupeKey.Some? && dedupeKey.value != "" {
        if dedupeKey.value in activeDedupeKeys {
          var activeId := activeDedupeKeys[dedupeKey.value];
          if activeId in jobs && jobs[activeId].status in {Queued, Running} {
            return Existing(activeId, jobs[activeId]);
          }
        }
      }
      if free == 0 {
        return QueueFull;
      }
      free := free - 1;
      jobs := jobs[id := Job(jobType, Queued, dedupeKey)];
      if dedupeKey.Some? && dedupeKey.value != "" {
        activeDedupeKeys := activeDedupeKeys[dedupeKey.value := id];
      }
      phases := phases[id := Admitted];
      reply := Accepted;
    }

    /** The executor takes the job. */
    ghost method Enqueue(id: JobId)
      requires Valid() && Enabled(Now(), Op.Enqueue(id))
      modifies this`phases
      ensures Now() == Next(old(Now()), Op.Enqueue(id))
      ensures Valid()
    {
      hide Inv;
      StepKeeps(Now(), Op.Enqueue(id));
      phases := phases[id := Enqueued];
    }

    /** The executor refused the job: it and its key are forgotten. */
    method Drop(id: JobId, dedupeKey: Option<Key>)
      requires Valid() && Enabled(Now(), Op.Drop(id)) && dedupeKey == jobs[id].key
      modifies this
      ensures Now() == Next(old(Now()), Op.Drop(id))
      ensures Valid()
    {
      hide PermitsConserved, KeysPoint;
      StepKeeps(Now(), Op.Drop(id));
      jobs := jobs - {id};
      if dedupeKey.Some? && dedupeKey.value != "" && dedupeKey.value in activeDedupeKeys && activeDedupeKeys[dedupeKey.value] == id {
        activeDedupeKeys := activeDedupeKeys - {dedupeKey.value};
      }
      phases := phases[id := Dropped];
    }

    /** The first section of a run. found says the lookup of the job succeeds. */
    method Start(id: JobId) returns (found: bool)
      requires Valid() && Enabled(Now(), Op.Start(id))
      modifies this
      ensures found && Now() == Next(old(Now()), Op.Start(id))
      ensures Valid()
    {
      hide PermitsConserved, KeysPoint;
      StepKeeps(Now(), Op.Start(id));
      found := id in jobs;
      if found {
        jobs := jobs[id := jobs[id].(status := Running)];
      }
      phases := phases[id := Working];
    }

    method Finish(id: JobId, outcome: Status)
      requires Valid() && Enabled(Now(), Op.Finish(id, outcome))
      modifies this
      ensures Now() == Next(old(Now()), Op.Finish(id, outcome))
      ensures Valid()
    {
      hide PermitsConserved, KeysPoint;
      StepKeeps(Now(), Op.Finish(id, outcome));
      jobs := jobs[id := jobs[id].(status := outcome)];
      phases := phases[id := Finished];
    }

    method ClearKey(id: JobId)
      requires Valid() && Enabled(Now(), Op.Clear(id))
      modifies this
      ensures Now() == Next(old(Now()), Op.Clear(id))
      ensures Valid()
    {
      hide PermitsConserved, KeysPoint;
      StepKeeps(Now(), Op.Clear(id));
      var key := jobs[id].key;
      if key.Some? && key.value != "" && key.value in activeDedupeKeys && activeDedupeKeys[key.value] == id {
        activeDedupeKeys := activeDedupeKeys - {key.value};
      }
      phases := phases[id := Cleared];
    }

    /** Gives a permit back. overReleased is what the bounded semaphore raises ValueError for. */
    method ReleasePermit(ghost id: JobId) returns (overReleased: bool)
      requires Valid() && Enabled(Now(), Op.Release(id))
      modifies this
      ensures !overReleased && Now() == Next(old(Now()), Op.Release(id))
      ensures Valid()
    {
      hide JobsFit, KeysPoint;
      StepKeeps(Now(), Op.Release(id));
      assert id in Holding(phases);
      overReleased := free >= capacity;
      free := free + 1;
      phases := phases[id := if phases[id] == Dropped then Gone else Phase.Released];
    }

    ghost method Shutdown()
      requires Valid()
      modifies this`closed
      ensures Now() == Next(old(Now()), Op.Shutdown)
      ensures Valid()
    {
      hide Inv;
      StepKeeps(Now(), Op.Shutdown);
      closed := true;
    }

    /** A job by its id: every id admitted is found, unless the executor refused it, with the status its thread has got to. */
    method Get(id: JobId) returns (job: Option<Job>)
      requires Valid()
      ensures job.Some? <==> id in phases && phases[id] !in {Dropped, Gone}
      ensures job.Some? ==> id in phases && StatusFits(job.value, phases[id]) && id in jobs && job.value == jobs[id]
    {
      hide PermitsConserved, KeysPoint, StatusFits;
      job := if id in jobs then Some(jobs[id]) else None;
      assert id in jobs ==> StatusFits(jobs[id], phases[id]);
      if id in jobs { NotDropped(Now(), id); }
    }
  }

  lemma NotDropped(s: State, id: JobId)
    requires Inv(s) && id in s.jobs
    ensures id in s.phases && s.phases[id] !in {Dropped, Gone}
  {
    hide PermitsConserved, KeysPoint;
  }
}
