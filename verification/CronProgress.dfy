/**
  That jobs run (pkg/cron/service.go): what each section arms and what it leaves alone, and that
  a one-shot job which nobody takes away is collected and invoked.
 */
module CronProgress {
  import opened Common
  import opened CronService
  import opened CronRuns

  // ---------- What the sections do to each job ----------

  /** What a schedule is armed for at a time. */
  ghost predicate IsArming(tick: NextTick, schedule: Schedule, now: int, next: Option<int>) {
    match schedule.kind
    case At => forall t :: next == Some(t) <==> schedule.atMs == Some(t) && now < t
    case Every =>
      && (next.Some? <==> schedule.everyMs.Some? && 0 < schedule.everyMs.value)
      && (next.Some? && 0 <= now && now + schedule.everyMs.value <= MAX_INT64 ==> next.value == now + schedule.everyMs.value)
    case CronExpr => next == if schedule.expr == "" then None else tick(schedule.expr, now)
    case OtherKind => next == None
  }

  lemma ComputedIs(tick: NextTick, schedule: Schedule, now: int)
    ensures IsArming(tick, schedule, now, ComputeNextRun(tick, schedule, now))
  {
  }

  /** Adding a job arms it, marks a one-shot job for deletion, and leaves the others alone. */
  lemma AddArms(tick: NextTick, s: State, id: string, schedule: Schedule, saveOk: bool)
    ensures var jobs := AfterAdd(tick, s, id, schedule, saveOk).jobs;
            && |jobs| == |s.jobs| + 1 && jobs[..|s.jobs|] == s.jobs
            && var job := jobs[|s.jobs|];
            && job.id == id && job.enabled && job.schedule == schedule && (job.deleteAfterRun <==> schedule.kind == At)
            && IsArming(tick, schedule, s.clock, job.nextRun)
  {
    ComputedIs(tick, schedule, s.clock);
    hide ComputeNextRun, IsArming;
  }

  /** Starting the service arms the enabled jobs of the store and leaves the others alone. */
  lemma StartArms(tick: NextTick, s: State, saveOk: bool)
    requires !s.running
    ensures var jobs := AfterStart(tick, s, true, saveOk).jobs;
            && |jobs| == |s.disk|
            && forall i :: 0 <= i < |jobs| ==>
                 && jobs[i] == s.disk[i].(nextRun := jobs[i].nextRun)
                 && (if jobs[i].enabled then IsArming(tick, jobs[i].schedule, s.clock, jobs[i].nextRun)
                     else jobs[i].nextRun == s.disk[i].nextRun)
  {
    forall i | 0 <= i < |s.disk| {
      ComputedIs(tick, s.disk[i].schedule, s.clock);
    }
    hide ComputeNextRun, IsArming;
  }

  /** The jobs with one of them changed. */
  ghost predicate OnlyChanges(jobs: seq<Job>, jobs': seq<Job>, k: nat) {
    |jobs'| == |jobs| && forall i :: 0 <= i < |jobs| && i != k ==> jobs'[i] == jobs[i]
  }

  /** Enabling arms the job, disabling disarms it, and neither touches another one. */
  lemma EnableArms(tick: NextTick, s: State, id: string, enabled: bool, saveOk: bool, k: nat)
    requires UniqueIds(s.jobs) && k < |s.jobs| && s.jobs[k].id == id
    ensures var jobs := AfterEnable(tick, s, id, enabled, saveOk).jobs;
            && OnlyChanges(s.jobs, jobs, k)
            && jobs[k] == s.jobs[k].(enabled := enabled, nextRun := jobs[k].nextRun)
            && (if enabled then IsArming(tick, jobs[k].schedule, s.clock, jobs[k].nextRun) else jobs[k].nextRun == None)
  {
    ComputedIs(tick, s.jobs[k].schedule, s.clock);
    assert IndexOf(s.jobs, id) == k;
    hide ComputeNextRun, IsArming;
  }

  /** The due jobs are collected in the order of the list. */
  lemma {:induction false} DueInOrder(a: seq<Job>, b: seq<Job>, now: int)
    ensures DueIds(a + b, now) == DueIds(a, now) + DueIds(b, now)
    decreases |b|
  {
    hide IsDue;
    if b == [] {
      assert a + b == a;
    } else {
      var n := |b| - 1;
      assert (a + b)[..|a + b| - 1] == a + b[..n] && (a + b)[|a + b| - 1] == b[n];
      DueInOrder(a, b[..n], now);
    }
  }

  lemma HasDueIs(jobs: seq<Job>, now: int, i: nat)
    requires UniqueIds(jobs) && i < |jobs|
    ensures HasDue(jobs, now, jobs[i].id) <==> IsDue(jobs[i], now)
  {
    hide IsDue;
    assert forall k :: 0 <= k < |jobs| && jobs[k].id == jobs[i].id ==> k == i;
  }

  /** A tick disarms the due jobs and changes nothing else. */
  lemma TickDisarms(jobs: seq<Job>, now: int, i: nat)
    requires UniqueIds(jobs) && i < |jobs|
    ensures var due := jobs[i].enabled && jobs[i].nextRun.Some? && jobs[i].nextRun.value <= now;
            && |Disarmed(jobs, DueIds(jobs, now))| == |jobs|
            && Disarmed(jobs, DueIds(jobs, now))[i] == if due then jobs[i].(nextRun := None) else jobs[i]
  {
    DueCount(jobs, now, jobs[i].id);
    HasDueIs(jobs, now, i);
    hide DueIds, HasDue;
  }

  /** Removing a job takes out that job. */
  lemma {:induction false} WithoutIs(jobs: seq<Job>, id: string, k: nat)
    requires UniqueIds(jobs) && k < |jobs| && jobs[k].id == id
    ensures Without(jobs, id) == jobs[..k] + jobs[k + 1..]
    decreases |jobs|
  {
    var n := |jobs| - 1;
    var init := jobs[..n];
    if k == n {
      NoneIsWithout(init, id);
      assert jobs[..k] + jobs[k + 1..] == init + [];
    } else {
      WithoutIs(init, id, k);
      assert jobs[..k] + jobs[k + 1..] == (init[..k] + init[k + 1..]) + [jobs[n]];
    }
  }

  lemma {:induction false} NoneIsWithout(jobs: seq<Job>, id: string)
    requires forall i :: 0 <= i < |jobs| ==> jobs[i].id != id
    ensures Without(jobs, id) == jobs
    decreases |jobs|
  {
    if jobs != [] {
      NoneIsWithout(jobs[..|jobs| - 1], id);
      assert jobs == jobs[..|jobs| - 1] + [jobs[|jobs| - 1]];
    }
  }

  /**
    The end of a handler: a one-shot job is deleted, or disabled and disarmed; any other job is
    armed from then on; the run is recorded; no other job is touched.
   */
  lemma FinishIs(tick: NextTick, jobs: seq<Job>, id: string, start: int, ok: bool, now: int, k: nat)
    requires UniqueIds(jobs) && k < |jobs| && jobs[k].id == id
    ensures var jobs' := Finished(tick, jobs, id, start, ok, now);
            if jobs[k].schedule.kind == At && jobs[k].deleteAfterRun then jobs' == jobs[..k] + jobs[k + 1..]
            else
              && OnlyChanges(jobs, jobs', k)
              && jobs'[k].lastRun == Some(start) && jobs'[k].lastOk == Some(ok)
              && jobs'[k].id == id && jobs'[k].schedule == jobs[k].schedule
              && jobs'[k].deleteAfterRun == jobs[k].deleteAfterRun
              && (if jobs[k].schedule.kind == At then !jobs'[k].enabled && jobs'[k].nextRun == None
                  else jobs'[k].enabled == jobs[k].enabled && IsArming(tick, jobs[k].schedule, now, jobs'[k].nextRun))
  {
    ComputedIs(tick, jobs[k].schedule, now);
    WithoutIs(jobs, id, k);
    assert IndexOf(jobs, id) == k;
    hide ComputeNextRun, IsArming, Without;
  }

  // ---------- Jobs that stay ----------

  /** Nobody removes the job, switches it, or ends the service. */
  predicate Quiet(e: Event, id: string) {
    && !(e.Remove? && e.id == id) && !(e.Enable? && e.id == id)
    && !e.Stop? && !e.Crash?
  }

  /** A change that leaves a job as it is. */
  lemma OthersStay(tick: NextTick, jobs: seq<Job>, job: Job, other: string, now: int)
    requires UniqueIds(jobs) && job in jobs && job.id != other
    ensures job in Without(jobs, other)
    ensures forall enabled :: job in Switched(tick, jobs, other, enabled, now)
    ensures forall start, ok :: job in Finished(tick, jobs, other, start, ok, now)
  {
    hide ComputeNextRun;
    var i :| 0 <= i < |jobs| && jobs[i] == job;
    var k := IndexOf(jobs, other);
    if k < |jobs| {
      WithoutIs(jobs, other, k);
      assert job in jobs[..k] + jobs[k + 1..] by {
        assert if i < k then (jobs[..k] + jobs[k + 1..])[i] == job else (jobs[..k] + jobs[k + 1..])[i - 1] == job;
      }
    } else {
      NoneIsWithout(jobs, other);
    }
    hide Without, IndexOf;
    forall enabled ensures job in Switched(tick, jobs, other, enabled, now) {
      assert Switched(tick, jobs, other, enabled, now)[i] == job;
    }
    forall start, ok ensures job in Finished(tick, jobs, other, start, ok, now) {
      var jobs' := Finished(tick, jobs, other, start, ok, now);
      assert jobs' == Without(jobs, other) || (|jobs'| == |jobs| && jobs'[i] == job);
    }
  }

  lemma NotDueStays(jobs: seq<Job>, job: Job, now: int)
    requires UniqueIds(jobs) && job in jobs && !IsDue(job, now)
    ensures job in Disarmed(jobs, DueIds(jobs, now)) && job.id !in DueIds(jobs, now)
  {
    var i :| 0 <= i < |jobs| && jobs[i] == job;
    TickDisarms(jobs, now, i);
    assert Disarmed(jobs, DueIds(jobs, now))[i] == job;
    DueCount(jobs, now, job.id);
    HasDueIs(jobs, now, i);
  }

  ghost predicate NotRunning(loops: seq<Loop>, id: string) {
    forall l :: 0 <= l < |loops| ==> !(loops[l].phase.Running? && loops[l].phase.id == id)
  }

  // ---------- Waiting for the time ----------

  /** The job is armed in a running service, and no loop has it yet. */
  ghost predicate Waiting(s: State, job: Job) {
    && s.running && job in s.jobs
    && LoopsUse(s.loops, job.id) == 0 && NotRunning(s.loops, job.id)
  }

  lemma {:induction false} LoopUsesLess(loops: seq<Loop>, l: nat, id: string)
    requires l < |loops|
    ensures LoopUses(loops[l], id) <= LoopsUse(loops, id)
    decreases |loops|
  {
    hide LoopUses;
    if l < |loops| - 1 {
      LoopUsesLess(loops[..|loops| - 1], l, id);
    }
  }

  /** A loop that does not have the job, and does not get it, changes nothing for it. */
  lemma OtherLoopStep(s: State, l: nat, loop: Loop, s': State, job: Job)
    requires Waiting(s, job) && l < |s.loops| && LoopUses(loop, job.id) == 0
    requires !(loop.phase.Running? && loop.phase.id == job.id)
    requires s'.running == s.running && s'.jobs == s.jobs && s'.loops == s.loops[l := loop]
    ensures Waiting(s', job)
  {
    SetLoopUses(s.loops, l, loop, job.id);
    hide LoopsUse, LoopUses;
  }

  lemma TakeKeepsWaiting(s: State, l: nat, job: Job)
    requires Waiting(s, job) && l < |s.loops| && s.loops[l].phase == Idle && s.loops[l].queue != []
    ensures Waiting(AfterTake(s, l), job)
  {
    var loop := s.loops[l];
    LoopUsesLess(s.loops, l, job.id);
    assert job.id !in loop.queue;
    assert forall x :: x in loop.queue[1..] ==> x in loop.queue;
    var loop' := loop.(queue := loop.queue[1..], phase := Taken(loop.queue[0], s.clock));
    assert loop.queue[0] != job.id && multiset(loop'.queue)[job.id] == 0;
    hide Waiting, LoopsUse;
    OtherLoopStep(s, l, loop', AfterTake(s, l), job);
  }

  lemma LookupKeepsWaiting(s: State, l: nat, job: Job)
    requires Waiting(s, job) && l < |s.loops| && s.loops[l].phase.Taken?
    ensures Waiting(AfterLookup(s, l), job)
  {
    LoopUsesLess(s.loops, l, job.id);
    var loop, s' := s.loops[l], AfterLookup(s, l);
    hide Waiting, LoopsUse, IndexOf;
    OtherLoopStep(s, l, s'.loops[l], s', job);
  }

  lemma ExitKeepsWaiting(s: State, l: nat, job: Job)
    requires Waiting(s, job) && l < |s.loops|
    ensures Waiting(AfterExit(s, l), job)
  {
    RemoveLoopUses(s.loops, l, job.id);
    hide LoopsUse, LoopUses;
  }

  lemma EarlyTickKeepsWaiting(s: State, l: nat, saveOk: bool, job: Job)
    requires UniqueIds(s.jobs) && Waiting(s, job) && !IsDue(job, s.clock)
    requires l < |s.loops| && s.loops[l].phase == Idle && s.loops[l].queue == []
    ensures Waiting(AfterTick(s, l, saveOk), job)
  {
    var due := DueIds(s.jobs, s.clock);
    NotDueStays(s.jobs, job, s.clock);
    SetLoopUses(s.loops, l, s.loops[l].(queue := due), job.id);
    hide LoopsUse, DueIds, Disarmed;
  }

  lemma FinishKeepsWaiting(tick: NextTick, s: State, l: nat, ok: bool, saveOk: bool, job: Job)
    requires UniqueIds(s.jobs) && Waiting(s, job) && l < |s.loops| && s.loops[l].phase.Running?
    ensures Waiting(AfterFinish(tick, s, l, ok, saveOk), job)
  {
    OthersStay(tick, s.jobs, job, s.loops[l].phase.id, s.clock);
    SetLoopUses(s.loops, l, s.loops[l].(phase := Idle), job.id);
    LoopUsesLess(s.loops, l, job.id);
    hide LoopsUse, Finished, IndexOf;
  }

  lemma JobStepKeepsWaiting(tick: NextTick, s: State, e: Event, job: Job)
    requires UniqueIds(s.jobs) && Waiting(s, job) && Quiet(e, job.id)
    ensures e.Remove? ==> Waiting(AfterRemove(s, e.id, e.saveOk), job)
    ensures e.Enable? ==> Waiting(AfterEnable(tick, s, e.id, e.enabled, e.saveOk), job)
    ensures e.Add? ==> Waiting(AfterAdd(tick, s, e.id, e.schedule, e.saveOk), job)
    ensures e.Start? ==> Waiting(AfterStart(tick, s, e.loadOk, e.saveOk), job)
  {
    if e.Remove? || e.Enable? {
      OthersStay(tick, s.jobs, job, e.id, s.clock);
    }
    hide LoopsUse, Without, Switched, NewJob, IndexOf;
  }

  /** As long as no tick comes from its time on, the job stays armed. */
  lemma NextKeepsWaiting(tick: NextTick, s0: State, e: Timed, job: Job)
    requires IdsKnown(s0) && Waiting(s0, job) && Possible(s0, e) && Quiet(e.event, job.id)
    requires e.event.Tick? ==> !IsDue(job, e.now)
    ensures Waiting(Next(tick, s0, e), job)
  {
    hide AfterTick, AfterTake, AfterLookup, AfterFinish, AfterExit, AfterAdd, AfterRemove, AfterEnable, AfterStart, AfterStop, AfterCrash;
    var s := s0.(clock := e.now);
    assert Waiting(s, job) && UniqueIds(s.jobs);
    hide IdsKnown, Waiting, IsDue;
    match e.event
    case Tick(l, saveOk) => EarlyTickKeepsWaiting(s, l, saveOk, job);
    case Take(l) => TakeKeepsWaiting(s, l, job);
    case Lookup(l) => LookupKeepsWaiting(s, l, job);
    case Finish(l, ok, saveOk) => FinishKeepsWaiting(tick, s, l, ok, saveOk, job);
    case Exit(l) => ExitKeepsWaiting(s, l, job);
    case _ => JobStepKeepsWaiting(tick, s, e.event, job);
  }

  // ---------- Collected ----------

  /** The job is in a loop's hands: it was invoked, or a loop has it and it is still there to be found. */
  ghost predicate InHand(s: State, id: string) {
    && s.running && 1 <= Uses(s, id)
    && (Invocations(s.log, id) == 0 ==> NotRunning(s.loops, id) && exists job :: job in s.jobs && job.id == id)
  }

  /** A tick takes no job away. */
  lemma StaysThere(s: State, l: nat, saveOk: bool, job: Job)
    requires job in s.jobs && l < |s.loops|
    ensures exists job' :: job' in AfterTick(s, l, saveOk).jobs && job'.id == job.id
  {
    hide DueIds;
    var i :| 0 <= i < |s.jobs| && s.jobs[i] == job;
    var s' := AfterTick(s, l, saveOk);
    assert s'.jobs[i] in s'.jobs && s'.jobs[i].id == job.id;
  }

  lemma DueIsCollected(jobs: seq<Job>, job: Job, now: int)
    requires UniqueIds(jobs) && job in jobs && IsDue(job, now)
    ensures job.id in DueIds(jobs, now)
  {
    hide DueIds, IsDue;
    var i :| 0 <= i < |jobs| && jobs[i] == job;
    DueCount(jobs, now, job.id);
    HasDueIs(jobs, now, i);
  }

  /** The first tick from its time on collects the job. */
  lemma TickCollects(s: State, l: nat, saveOk: bool, job: Job)
    requires UniqueIds(s.jobs) && Waiting(s, job) && IsDue(job, s.clock)
    requires l < |s.loops| && s.loops[l].phase == Idle && s.loops[l].queue == []
    ensures InHand(AfterTick(s, l, saveOk), job.id)
    ensures job.id in AfterTick(s, l, saveOk).loops[l].queue
  {
    hide DueIds, Uses, LoopsUse, UniqueIds, IsDue, Disarmed, Invocations;
    StaysThere(s, l, saveOk, job);
    DueIsCollected(s.jobs, job, s.clock);
    TickUses(s, l, saveOk, job.id);
  }

  lemma LookupKeepsInHand(s: State, l: nat, id: string)
    requires InHand(s, id) && l < |s.loops| && s.loops[l].phase.Taken?
    ensures InHand(AfterLookup(s, l), id)
  {
    var loop := s.loops[l];
    var p, s' := loop.phase, AfterLookup(s, l);
    SetLoopUses(s.loops, l, loop.(phase := Idle), id);
    SetLoopUses(s.loops, l, loop.(phase := Running(p.id, p.start)), id);
    if IndexOf(s.jobs, p.id) < |s.jobs| {
      assert (s.log + [Invocation(p.id, p.start)])[..|s.log|] == s.log;
    }
    hide LoopsUse, IndexOf;
  }

  lemma TakeKeepsInHand(s: State, l: nat, id: string)
    requires InHand(s, id) && l < |s.loops| && s.loops[l].phase == Idle && s.loops[l].queue != []
    ensures InHand(AfterTake(s, l), id)
  {
    var loop := s.loops[l];
    var loop' := loop.(queue := loop.queue[1..], phase := Taken(loop.queue[0], s.clock));
    assert loop.queue == [loop.queue[0]] + loop.queue[1..];
    assert LoopUses(loop', id) == LoopUses(loop, id);
    SetLoopUses(s.loops, l, loop', id);
    hide LoopsUse, LoopUses, Invocations;
  }

  lemma ExitKeepsInHand(s: State, l: nat, id: string)
    requires InHand(s, id) && l < |s.loops| && s.loops[l].phase == Idle && s.loops[l].queue == []
    ensures InHand(AfterExit(s, l), id)
  {
    RemoveLoopUses(s.loops, l, id);
    hide LoopsUse, Invocations;
  }

  /** Where the job was not invoked yet, it stays there to be found. */
  lemma TickKeepsInHand(s: State, l: nat, saveOk: bool, id: string)
    requires UniqueIds(s.jobs) && InHand(s, id)
    requires l < |s.loops| && s.loops[l].phase == Idle && s.loops[l].queue == []
    ensures InHand(AfterTick(s, l, saveOk), id)
  {
    TickUses(s, l, saveOk, id);
    hide Uses, LoopsUse, DueIds, Disarmed;
    if Invocations(s.log, id) == 0 {
      var job :| job in s.jobs && job.id == id;
      StaysThere(s, l, saveOk, job);
    }
  }

  lemma FinishKeepsInHand(tick: NextTick, s: State, l: nat, ok: bool, saveOk: bool, id: string)
    requires UniqueIds(s.jobs) && InHand(s, id) && l < |s.loops| && s.loops[l].phase.Running?
    ensures InHand(AfterFinish(tick, s, l, ok, saveOk), id)
  {
    if Invocations(s.log, id) == 0 {
      var job :| job in s.jobs && job.id == id;
      OthersStay(tick, s.jobs, job, s.loops[l].phase.id, s.clock);
    }
    SetLoopUses(s.loops, l, s.loops[l].(phase := Idle), id);
    hide LoopsUse, Finished, IndexOf, Invocations;
  }

  lemma JobStepKeepsInHand(tick: NextTick, s: State, e: Event, id: string)
    requires UniqueIds(s.jobs) && InHand(s, id) && Quiet(e, id)
    ensures e.Remove? ==> InHand(AfterRemove(s, e.id, e.saveOk), id)
    ensures e.Enable? ==> InHand(AfterEnable(tick, s, e.id, e.enabled, e.saveOk), id)
    ensures e.Add? ==> InHand(AfterAdd(tick, s, e.id, e.schedule, e.saveOk), id)
    ensures e.Start? ==> InHand(AfterStart(tick, s, e.loadOk, e.saveOk), id)
  {
    hide LoopsUse, Without, Switched, NewJob, IndexOf, Invocations;
    if Invocations(s.log, id) == 0 {
      var job :| job in s.jobs && job.id == id;
      if e.Remove? || e.Enable? {
        OthersStay(tick, s.jobs, job, e.id, s.clock);
      }
      assert e.Add? ==> job in AfterAdd(tick, s, e.id, e.schedule, e.saveOk).jobs;
    }
  }

  lemma NextKeepsInHand(tick: NextTick, s0: State, e: Timed, id: string)
    requires IdsKnown(s0) && InHand(s0, id) && Possible(s0, e) && Quiet(e.event, id)
    ensures InHand(Next(tick, s0, e), id)
  {
    hide AfterTick, AfterTake, AfterLookup, AfterFinish, AfterExit, AfterAdd, AfterRemove, AfterEnable, AfterStart, AfterStop, AfterCrash;
    var s := s0.(clock := e.now);
    UsesIgnoreClock(s0, s, id);
    assert InHand(s, id) && UniqueIds(s.jobs);
    hide IdsKnown, InHand;
    match e.event
    case Tick(l, saveOk) => TickKeepsInHand(s, l, saveOk, id);
    case Take(l) => TakeKeepsInHand(s, l, id);
    case Lookup(l) => LookupKeepsInHand(s, l, id);
    case Finish(l, ok, saveOk) => FinishKeepsInHand(tick, s, l, ok, saveOk, id);
    case Exit(l) => ExitKeepsInHand(s, l, id);
    case _ => JobStepKeepsInHand(tick, s, e.event, id);
  }

  // ---------- Whole runs ----------

  ghost predicate AllQuiet(events: seq<Timed>, id: string) {
    forall i :: 0 <= i < |events| ==> Quiet(events[i].event, id)
  }

  /** A tick from a time on. */
  predicate TickFrom(e: Timed, t: int) {
    e.event.Tick? && t <= e.now
  }

  lemma {:induction false} RunKeepsInHand(tick: NextTick, s: State, events: seq<Timed>, s': State, id: string)
    requires IsRun(tick, s, events, s') && IdsKnown(s) && InHand(s, id) && AllQuiet(events, id)
    ensures InHand(s', id)
    decreases |events|
  {
    hide IdsKnown, InHand, Next, Possible, Quiet;
    if events != [] {
      NextIdsKnown(tick, s, events[0]);
      NextKeepsInHand(tick, s, events[0], id);
      RunKeepsInHand(tick, Next(tick, s, events[0]), events[1..], s', id);
    }
  }

  lemma {:induction false} RunCollects(tick: NextTick, s: State, events: seq<Timed>, s': State, job: Job, t: int, i: nat)
    requires IsRun(tick, s, events, s') && IdsKnown(s) && Waiting(s, job) && AllQuiet(events, job.id)
    requires job.enabled && job.nextRun == Some(t) && i < |events| && TickFrom(events[i], t)
    ensures InHand(s', job.id)
    decreases |events|
  {
    hide IdsKnown, InHand, Next, Possible, Quiet, Waiting;
    var e := events[0];
    NextIdsKnown(tick, s, e);
    assert Quiet(e.event, job.id);
    if TickFrom(e, t) {
      TickCollectsNext(tick, s, e, job, t);
      RunKeepsInHand(tick, Next(tick, s, e), events[1..], s', job.id);
    } else {
      NextKeepsWaiting(tick, s, e, job);
      assert events[1..][i - 1] == events[i];
      RunCollects(tick, Next(tick, s, e), events[1..], s', job, t, i - 1);
    }
  }

  lemma TickCollectsNext(tick: NextTick, s0: State, e: Timed, job: Job, t: int)
    requires IdsKnown(s0) && Waiting(s0, job) && Possible(s0, e)
    requires job.enabled && job.nextRun == Some(t) && TickFrom(e, t)
    ensures InHand(Next(tick, s0, e), job.id)
    ensures job.id in Next(tick, s0, e).loops[e.event.loop].queue
  {
    hide AfterTick, InHand;
    var s := s0.(clock := e.now);
    assert Waiting(s, job) && UniqueIds(s.jobs);
    hide IdsKnown, Waiting;
    TickCollects(s, e.event.loop, e.event.saveOk, job);
  }

  lemma AddedWaits(tick: NextTick, s0: State, e: Timed, t: int) returns (job: Job)
    requires IdsKnown(s0) && s0.running && Possible(s0, e) && e.event.Add?
    requires e.event.schedule.kind == At && e.event.schedule.atMs == Some(t) && e.now < t
    ensures Waiting(Next(tick, s0, e), job)
    ensures job.id == e.event.id && job.enabled && job.nextRun == Some(t)
    ensures var s1 := Next(tick, s0, e); job.id in s1.known && s1.known[job.id] == e.event.schedule
  {
    var s, id := s0.(clock := e.now), e.event.id;
    UnknownNotInLoops(s0.loops, s0.known, id);
    assert forall l :: 0 <= l < |s0.loops| ==> LoopKnown(s0.loops[l], s0.known);
    AddArms(tick, s, id, e.event.schedule, e.event.saveOk);
    job := AfterAdd(tick, s, id, e.event.schedule, e.event.saveOk).jobs[|s.jobs|];
    assert job.nextRun == Some(t);
    hide LoopsUse, NewJob, IsArming;
  }

  /**
    An "at" job runs. It is added to a running service before its time; nobody removes it,
    switches it or ends the service; and at least one tick comes from its time on. Then it is in
    a loop's hands exactly once: as soon as no loop has it waiting, its handler was invoked,
    exactly once, and not before its time.
   */
  lemma {:induction false} AtJobRuns(
    tick: NextTick, before: seq<Timed>, s0: State, e: Timed, t: int, events: seq<Timed>, s: State, i: nat)
    requires IsRun(tick, INITIAL, before, s0) && s0.running && Possible(s0, e) && e.event.Add?
    requires e.event.schedule.kind == At && e.event.schedule.atMs == Some(t) && e.now < t
    requires IsRun(tick, Next(tick, s0, e), events, s) && AllQuiet(events, e.event.id)
    requires i < |events| && TickFrom(events[i], t)
    ensures LoopsUse(s.loops, e.event.id) + Invocations(s.log, e.event.id) == 1
    ensures LoopsUse(s.loops, e.event.id) == 0 ==> Invocations(s.log, e.event.id) == 1
    ensures forall j :: 0 <= j < |s.log| && s.log[j].id == e.event.id ==> t <= s.log[j].start
  {
    hide *;
    var id, s1 := e.event.id, Next(tick, s0, e);
    NothingIsKnown();
    RunIdsKnown(tick, INITIAL, before, s0);
    NextIdsKnown(tick, s0, e);
    var job := AddedWaits(tick, s0, e, t);
    RunCollects(tick, s1, events, s, job, t, i);
    RunKeepsKnown(tick, s1, events, s, id);
    WholeRun(tick, before, s0, e, events, s);
    AtMostOneUse(tick, before + [e] + events, s, id);
    AtMostOnce(tick, before + [e] + events, s, id);
    InHandIs(s, id);
  }

  lemma NothingIsKnown()
    ensures IdsKnown(INITIAL)
  {
  }

  lemma InHandIs(s: State, id: string)
    requires InHand(s, id)
    ensures 1 <= Uses(s, id) && Uses(s, id) == LoopsUse(s.loops, id) + Invocations(s.log, id)
  {
  }

  lemma {:induction false} RunIdsKnown(tick: NextTick, s: State, events: seq<Timed>, s': State)
    requires IsRun(tick, s, events, s') && IdsKnown(s)
    ensures IdsKnown(s')
    decreases |events|
  {
    hide IdsKnown, Next, Possible;
    if events != [] {
      NextIdsKnown(tick, s, events[0]);
      RunIdsKnown(tick, Next(tick, s, events[0]), events[1..], s');
    }
  }

  lemma {:induction false} RunKeepsKnown(tick: NextTick, s: State, events: seq<Timed>, s': State, id: string)
    requires IsRun(tick, s, events, s') && id in s.known
    ensures id in s'.known && s'.known[id] == s.known[id]
    decreases |events|
  {
    if events != [] {
      RunKeepsKnown(tick, Next(tick, s, events[0]), events[1..], s', id);
    }
  }

  lemma {:induction false} RunsJoin(tick: NextTick, s: State, a: seq<Timed>, s': State, b: seq<Timed>, s'': State)
    requires IsRun(tick, s, a, s') && IsRun(tick, s', b, s'')
    ensures IsRun(tick, s, a + b, s'')
    decreases |a|
  {
    hide Next, Possible;
    if a == [] {
      assert a + b == b;
    } else {
      assert (a + b)[1..] == a[1..] + b;
      RunsJoin(tick, Next(tick, s, a[0]), a[1..], s', b, s'');
    }
  }

  lemma WholeRun(tick: NextTick, before: seq<Timed>, s0: State, e: Timed, events: seq<Timed>, s: State)
    requires IsRun(tick, INITIAL, before, s0) && Possible(s0, e) && IsRun(tick, Next(tick, s0, e), events, s)
    ensures IsRun(tick, INITIAL, before + [e] + events, s)
  {
    assert [e][1..] == [];
    assert IsRun(tick, s0, [e], Next(tick, s0, e));
    hide IsRun, Next, Possible;
    RunsJoin(tick, INITIAL, before, s0, [e], Next(tick, s0, e));
    RunsJoin(tick, INITIAL, before + [e], Next(tick, s0, e), events, s);
  }

  lemma AtMostOneUse(tick: NextTick, events: seq<Timed>, s: State, id: string)
    requires IsRun(tick, INITIAL, events, s) && id in s.known && s.known[id].kind == At
    ensures Uses(s, id) <= 1
  {
    RunKeepsOneShot(tick, INITIAL, events, s, id);
    hide Uses;
  }

  // ---------- A loop can always go on ----------

  /** What a loop still has to do before a waiting id is invoked. */
  function StepsLeft(loop: Loop): nat {
    3 * |loop.queue| + match loop.phase case Idle => 0 case Taken(_, _) => 2 case Running(_, _) => 1
  }

  /** The next step of a loop that has something to do. */
  function LoopStep(loop: Loop, l: nat): Event {
    match loop.phase
    case Idle => Take(l)
    case Taken(_, _) => Lookup(l)
    case Running(_, _) => Finish(l, true, true)
  }

  /** Whatever the loop is busy with: going on, it comes to the job and invokes its handler. */
  lemma {:induction false} LoopInvokes(tick: NextTick, s: State, l: nat, id: string)
    returns (events: seq<Timed>, s': State)
    requires IdsKnown(s) && InHand(s, id) && l < |s.loops| && LoopUses(s.loops[l], id) >= 1
    ensures IsRun(tick, s, events, s') && AllQuiet(events, id)
    ensures 1 <= Invocations(s'.log, id)
    decreases StepsLeft(s.loops[l])
  {
    hide *;
    if 1 <= Invocations(s.log, id) {
      events, s' := [], s;
      NoEvents(tick, s, id);
    } else {
      var e := Timed(LoopStep(s.loops[l], l), s.clock);
      StepGoesOn(tick, s, l, id);
      NextIdsKnown(tick, s, e);
      NextKeepsInHand(tick, s, e, id);
      var s1 := Next(tick, s, e);
      var rest: seq<Timed>;
      if 1 <= Invocations(s1.log, id) {
        rest, s' := [], s1;
        NoEvents(tick, s1, id);
      } else {
        rest, s' := LoopInvokes(tick, s1, l, id);
      }
      events := [e] + rest;
      OneEventMore(tick, s, e, rest, s', id);
    }
  }

  lemma NoEvents(tick: NextTick, s: State, id: string)
    ensures IsRun(tick, s, [], s) && AllQuiet([], id)
  {
  }

  lemma OneEventMore(tick: NextTick, s: State, e: Timed, rest: seq<Timed>, s': State, id: string)
    requires Possible(s, e) && Quiet(e.event, id) && IsRun(tick, Next(tick, s, e), rest, s') && AllQuiet(rest, id)
    ensures IsRun(tick, s, [e] + rest, s') && AllQuiet([e] + rest, id)
  {
    hide Possible, Next, Quiet;
    assert ([e] + rest)[1..] == rest;
  }

  lemma StepGoesOn(tick: NextTick, s: State, l: nat, id: string)
    requires InHand(s, id) && Invocations(s.log, id) == 0 && l < |s.loops| && LoopUses(s.loops[l], id) >= 1
    ensures var e := Timed(LoopStep(s.loops[l], l), s.clock);
            && Possible(s, e) && Quiet(e.event, id)
            && var s1 := Next(tick, s, e);
            && |s1.loops| == |s.loops| && StepsLeft(s1.loops[l]) < StepsLeft(s.loops[l])
            && (1 <= Invocations(s1.log, id) || LoopUses(s1.loops[l], id) >= 1)
  {
    var loop := s.loops[l];
    match loop.phase
    case Idle =>
      assert loop.queue != [];
      assert loop.queue == [loop.queue[0]] + loop.queue[1..];
    case Taken(other, start) =>
      assert (s.log + [Invocation(other, start)])[..|s.log|] == s.log;
    case Running(_, _) =>
  }
}
