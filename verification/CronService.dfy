/**
  The job scheduler (pkg/cron/service.go): the sections that run under the service's lock.
  Clock readings, the evaluation of cron expressions, and whether a read or write of the store
  file succeeds are parameters.
 */
module CronService {
  import opened Common

  datatype Kind = At | Every | CronExpr | OtherKind

  datatype Schedule = Schedule(kind: Kind, atMs: Option<int>, everyMs: Option<int>, expr: string)

  datatype Job = Job(
    id: string,
    enabled: bool,
    schedule: Schedule,
    deleteAfterRun: bool,
    nextRun: Option<int>,
    lastRun: Option<int>,
    lastOk: Option<bool>)

  /** The next tick after a time of a cron expression, if it has one. */
  type NextTick = (string, int) -> Option<int>

  const MAX_INT64 := 0x7FFF_FFFF_FFFF_FFFF

  /** The value of a 64-bit signed sum. */
  function Wrap64(n: int): int {
    (n + MAX_INT64 + 1) % (2 * (MAX_INT64 + 1)) - (MAX_INT64 + 1)
  }

  function ComputeNextRun(tick: NextTick, schedule: Schedule, now: int): Option<int> {
    match schedule.kind
    case At => if schedule.atMs.Some? && now < schedule.atMs.value then schedule.atMs else None
    case Every =>
      if schedule.everyMs.None? || schedule.everyMs.value <= 0 then None
      else Some(Wrap64(now + schedule.everyMs.value))
    case CronExpr => if schedule.expr == "" then None else tick(schedule.expr, now)
    case OtherKind => None
  }

  // ---------- What the sections do to the list of jobs ----------

  predicate IsDue(job: Job, now: int) {
    job.enabled && job.nextRun.Some? && job.nextRun.value <= now
  }

  function DueIds(jobs: seq<Job>, now: int): seq<string> {
    if jobs == [] then []
    else
      var last := jobs[|jobs| - 1];
      DueIds(jobs[..|jobs| - 1], now) + if IsDue(last, now) then [last.id] else []
  }

  function Disarmed(jobs: seq<Job>, ids: seq<string>): (jobs': seq<Job>)
    ensures |jobs'| == |jobs|
  {
    seq(|jobs|, i requires 0 <= i < |jobs| => if jobs[i].id in ids then jobs[i].(nextRun := None) else jobs[i])
  }

  function Recomputed(tick: NextTick, jobs: seq<Job>, now: int): (jobs': seq<Job>)
    ensures |jobs'| == |jobs|
  {
    seq(|jobs|, i requires 0 <= i < |jobs| =>
      if jobs[i].enabled then jobs[i].(nextRun := ComputeNextRun(tick, jobs[i].schedule, now)) else jobs[i])
  }

  /** The index of the first job with an id, or the length. */
  function IndexOf(jobs: seq<Job>, id: string): (k: nat)
    ensures k <= |jobs|
    ensures k < |jobs| ==> jobs[k].id == id
    ensures forall i :: 0 <= i < k ==> jobs[i].id != id
  {
    if jobs == [] || jobs[0].id == id then 0 else 1 + IndexOf(jobs[1..], id)
  }

  function Without(jobs: seq<Job>, id: string): (jobs': seq<Job>)
    ensures |jobs'| <= |jobs|
  {
    if jobs == [] then []
    else
      var last := jobs[|jobs| - 1];
      Without(jobs[..|jobs| - 1], id) + if last.id != id then [last] else []
  }

  function Switched(tick: NextTick, jobs: seq<Job>, id: string, enabled: bool, now: int): seq<Job> {
    var k := IndexOf(jobs, id);
    if k == |jobs| then jobs
    else
      var next := if enabled then ComputeNextRun(tick, jobs[k].schedule, now) else None;
      jobs[k := jobs[k].(enabled := enabled, nextRun := next)]
  }

  function Finished(tick: NextTick, jobs: seq<Job>, id: string, start: int, ok: bool, now: int): seq<Job> {
    var k := IndexOf(jobs, id);
    if k == |jobs| then jobs
    else
      var job := jobs[k].(lastRun := Some(start), lastOk := Some(ok));
      if job.schedule.kind == At then
        if job.deleteAfterRun then Without(jobs, id)
        else jobs[k := job.(enabled := false, nextRun := None)]
      else jobs[k := job.(nextRun := ComputeNextRun(tick, job.schedule, now))]
  }

  function NewJob(tick: NextTick, id: string, schedule: Schedule, now: int): Job {
    Job(id, true, schedule, schedule.kind == At, ComputeNextRun(tick, schedule, now), None, None)
  }

  // ---------- The service ----------

  class Service {
    const tick: NextTick
    var jobs: seq<Job>
    var disk: seq<Job>
    var running: bool

    /** A new process: the store is loaded if it can be read, nothing runs yet. */
    constructor (tick: NextTick, disk: seq<Job>, loadOk: bool)
      ensures this.tick == tick && this.disk == disk && jobs == (if loadOk then disk else []) && !running
    {
      this.tick := tick;
      this.disk := disk;
      jobs, running := if loadOk then disk else [], false;
    }

    /** Writes the store file, all of it or nothing. */
    method Save(saveOk: bool)
      modifies this`disk
      ensures disk == if saveOk then jobs else old(disk)
    {
      if saveOk {
        disk := jobs;
      }
    }

    /** Whether the service runs afterwards, and whether this call started a run loop. */
    method Start(now: int, loadOk: bool, saveOk: bool) returns (ok: bool, spawned: bool)
      modifies this
      ensures spawned == (!old(running) && loadOk && saveOk)
      ensures ok == (old(running) || spawned) == running
      ensures old(running) ==> jobs == old(jobs) && disk == old(disk)
      ensures !old(running) ==> jobs == if loadOk then Recomputed(tick, old(disk), now) else []
      ensures !old(running) ==> disk == if spawned then jobs else old(disk)
    {
      if running {
        return true, false;
      }
      jobs := [];
      if !loadOk {
        return false, false;
      }
      jobs := disk;
      RecomputeNextRuns(now);
      Save(saveOk);
      if !saveOk {
        return false, false;
      }
      running := true;
      return true, true;
    }

    method RecomputeNextRuns(now: int)
      modifies this`jobs
      ensures jobs == Recomputed(tick, old(jobs), now)
    {
      for i := 0 to |jobs|
        invariant |jobs| == |old(jobs)|
        invariant jobs[..i] == Recomputed(tick, old(jobs), now)[..i] && jobs[i..] == old(jobs)[i..]
      {
        if jobs[i].enabled {
          jobs := jobs[i := jobs[i].(nextRun := ComputeNextRun(tick, jobs[i].schedule, now))];
        }
      }
    }

    method Stop()
      modifies this`running
      ensures !running
    {
      running := false;
    }

    /** The locked part of a tick: collects the due jobs and disarms them. */
    method CollectDue(now: int, saveOk: bool) returns (due: seq<string>)
      modifies this`jobs, this`disk
      ensures !running ==> due == [] && jobs == old(jobs) && disk == old(disk)
      ensures running ==> due == DueIds(old(jobs), now) && jobs == Disarmed(old(jobs), due)
      ensures running ==> disk == if saveOk then jobs else old(disk)
    {
      due := [];
      if !running {
        return;
      }
      for i := 0 to |jobs|
        invariant due == DueIds(jobs[..i], now)
      {
        assert jobs[..i + 1][..i] == jobs[..i];
        var job := jobs[i];
        if job.enabled && job.nextRun.Some? && job.nextRun.value <= now {
          due := due + [job.id];
        }
      }
      assert jobs[..|jobs|] == jobs;
      Disarm(due);
      Save(saveOk);
    }

    method Disarm(due: seq<string>)
      modifies this`jobs
      ensures jobs == Disarmed(old(jobs), due)
    {
      for i := 0 to |jobs|
        invariant |jobs| == |old(jobs)|
        invariant forall k :: 0 <= k < i ==> jobs[k] == Disarmed(old(jobs), due)[k]
        invariant forall k :: i <= k < |jobs| ==> jobs[k] == old(jobs)[k]
      {
        if jobs[i].id in due {
          jobs := jobs[i := jobs[i].(nextRun := None)];
        }
      }
    }

    /** Finds the job with an id. */
    method Lookup(id: string) returns (k: nat)
      ensures k == IndexOf(jobs, id)
    {
      k := 0;
      while k < |jobs| && jobs[k].id != id
        invariant k <= |jobs| && forall i :: 0 <= i < k ==> jobs[i].id != id
      {
        k := k + 1;
      }
    }

    /** The locked part that follows the handler. */
    method FinishJob(id: string, start: int, ok: bool, now: int, saveOk: bool)
      modifies this`jobs, this`disk
      ensures jobs == Finished(tick, old(jobs), id, start, ok, now)
      ensures disk == if saveOk && IndexOf(old(jobs), id) < |old(jobs)| then jobs else old(disk)
    {
      var k := Lookup(id);
      if k == |jobs| {
        return;
      }
      jobs := jobs[k := jobs[k].(lastRun := Some(start), lastOk := Some(ok))];
      if jobs[k].schedule.kind == At {
        if jobs[k].deleteAfterRun {
          WithoutUpdated(old(jobs), k, jobs[k], id);
          var removed := RemoveJob(id, saveOk);
        } else {
          jobs := jobs[k := jobs[k].(enabled := false, nextRun := None)];
        }
      } else {
        jobs := jobs[k := jobs[k].(nextRun := ComputeNextRun(tick, jobs[k].schedule, now))];
      }
      Save(saveOk);
    }

    /** Adds a job under a new id; when the save fails it stays in memory all the same. */
    method AddJob(id: string, schedule: Schedule, now: int, saveOk: bool) returns (ok: bool)
      modifies this`jobs, this`disk
      ensures jobs == old(jobs) + [NewJob(tick, id, schedule, now)]
      ensures disk == if saveOk then jobs else old(disk)
      ensures ok == saveOk
    {
      var job := Job(id, true, schedule, schedule.kind == At, ComputeNextRun(tick, schedule, now), None, None);
      jobs := jobs + [job];
      Save(saveOk);
      return saveOk;
    }

    method RemoveJob(id: string, saveOk: bool) returns (removed: bool)
      modifies this`jobs, this`disk
      ensures jobs == Without(old(jobs), id)
      ensures removed == (|jobs| < |old(jobs)|)
      ensures disk == if saveOk && removed then jobs else old(disk)
    {
      var kept: seq<Job> := [];
      for i := 0 to |jobs|
        invariant kept == Without(jobs[..i], id)
      {
        assert jobs[..i + 1][..i] == jobs[..i];
        if jobs[i].id != id {
          kept := kept + [jobs[i]];
        }
      }
      assert jobs[..|jobs|] == jobs;
      removed := |kept| < |jobs|;
      jobs := kept;
      if removed {
        Save(saveOk);
      }
    }

    method EnableJob(id: string, enabled: bool, now: int, saveOk: bool) returns (found: bool)
      modifies this`jobs, this`disk
      ensures jobs == Switched(tick, old(jobs), id, enabled, now)
      ensures found == (IndexOf(old(jobs), id) < |old(jobs)|)
      ensures disk == if saveOk && found then jobs else old(disk)
    {
      var k := Lookup(id);
      if k == |jobs| {
        return false;
      }
      var job := jobs[k].(enabled := enabled);
      if enabled {
        job := job.(nextRun := ComputeNextRun(tick, job.schedule, now));
      } else {
        job := job.(nextRun := None);
      }
      jobs := jobs[k := job];
      Save(saveOk);
      return true;
    }
  }

  /** Removing a job removes the same whatever its state. */
  lemma {:induction false} WithoutUpdated(jobs: seq<Job>, k: nat, job: Job, id: string)
    requires k < |jobs| && jobs[k].id == id == job.id
    ensures Without(jobs[k := job], id) == Without(jobs, id)
    ensures |Without(jobs[k := job], id)| < |jobs|
    decreases |jobs|
  {
    var n := |jobs| - 1;
    if k == n {
      assert jobs[k := job][..n] == jobs[..n];
    } else {
      assert jobs[k := job][..n] == jobs[..n][k := job];
      WithoutUpdated(jobs[..n], k, job, id);
    }
  }
}
