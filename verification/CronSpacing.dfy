/**
  Repeating jobs of the scheduler (pkg/cron/service.go): as long as there is never more than
  one run loop, consecutive starts of an "every" job are at least its interval apart.
 */
module CronSpacing {
  import opened Common
  import opened CronService
  import opened CronRuns

  /** A run on which no state has more than n run loops. */
  ghost predicate IsBoundedRun(tick: NextTick, s: State, events: seq<Timed>, s': State, n: nat)
    decreases |events|
  {
    && |s.loops| <= n
    && if events == [] then s == s'
       else Possible(s, events[0]) && IsBoundedRun(tick, Next(tick, s, events[0]), events[1..], s', n)
  }

  /** Every start of the job so far lies at least the interval before a time. */
  ghost predicate Apart(log: seq<Invocation>, id: string, interval: int, time: int) {
    forall i :: 0 <= i < |log| && log[i].id == id ==> log[i].start + interval <= time
  }

  ghost predicate LogApart(log: seq<Invocation>, id: string, interval: int) {
    forall i, j :: 0 <= i < j < |log| && log[i].id == id && log[j].id == id ==> log[i].start + interval <= log[j].start
  }

  /** What the run loop is about to do respects the interval. */
  ghost predicate LoopApart(loop: Loop, log: seq<Invocation>, id: string, interval: int, clock: int) {
    && multiset(loop.queue)[id] <= 1
    && (loop.phase != Idle && loop.phase.id == id ==> id !in loop.queue && loop.phase.start <= clock)
    && (loop.phase.Taken? && loop.phase.id == id ==> Apart(log, id, interval, loop.phase.start))
    && (id in loop.queue ==> Apart(log, id, interval, clock))
  }

  ghost predicate JobsApart(jobs: seq<Job>, log: seq<Invocation>, id: string, interval: int) {
    forall k :: 0 <= k < |jobs| && jobs[k].id == id && jobs[k].enabled && jobs[k].nextRun.Some? ==>
      Apart(log, id, interval, jobs[k].nextRun.value)
  }

  /** While the handler runs, the job may be armed too early: the end of the handler arms it anew. */
  predicate Busy(s: State, id: string) {
    s.loops != [] && s.loops[0].phase.Running? && s.loops[0].phase.id == id
  }

  ghost predicate Spaced(s: State, id: string, interval: int) {
    && |s.loops| <= 1
    && 0 <= s.clock
    && LogApart(s.log, id, interval)
    && Apart(s.log, id, 0, s.clock)
    && (s.loops != [] ==> LoopApart(s.loops[0], s.log, id, interval, s.clock))
    && (s.running && !Busy(s, id) ==> JobsApart(s.jobs, s.log, id, interval))
  }

  function EverySchedule(interval: int): Schedule {
    Schedule(Every, None, Some(interval), "")
  }

  predicate IsEvery(s: State, id: string, interval: int) {
    id in s.known ==> s.known[id].kind == Every && s.known[id].everyMs == Some(interval)
  }

  /** Arming from the clock respects the interval, if the sum fits 64 bits. */
  lemma ComputedApart(tick: NextTick, schedule: Schedule, log: seq<Invocation>, id: string, interval: int, now: int)
    requires schedule.kind == Every && schedule.everyMs == Some(interval)
    requires 0 < interval && 0 <= now && now + interval <= MAX_INT64
    requires Apart(log, id, 0, now)
    ensures ComputeNextRun(tick, schedule, now) == Some(now + interval)
    ensures Apart(log, id, interval, now + interval)
  {
  }

  /** A new job is due at once if and only if the sum does not fit. */
  lemma OverflowIsDueAtOnce(tick: NextTick, id: string, interval: int, now: int)
    requires 0 < interval <= MAX_INT64 && 0 <= now <= MAX_INT64
    ensures IsDue(NewJob(tick, id, EverySchedule(interval), now), now) <==> MAX_INT64 < now + interval
  {
  }

  lemma SectionsArmApart(
    tick: NextTick, jobs: seq<Job>, log: seq<Invocation>, id: string, interval: int, now: int, known: map<string, Schedule>)
    requires Registered(jobs, known) && id in known && known[id].kind == Every && known[id].everyMs == Some(interval)
    requires 0 < interval && 0 <= now && now + interval <= MAX_INT64
    requires Apart(log, id, 0, now)
    ensures JobsApart(Recomputed(tick, jobs, now), log, id, interval)
    ensures forall start, ok :: JobsApart(Finished(tick, jobs, id, start, ok, now), log, id, interval)
  {
    ComputedApart(tick, known[id], log, id, interval, now);
    hide ComputeNextRun, Apart, Without;
  }

  lemma SectionsApart(
    tick: NextTick, jobs: seq<Job>, log: seq<Invocation>, id: string, interval: int, now: int, known: map<string, Schedule>)
    requires Registered(jobs, known) && id in known && known[id].kind == Every && known[id].everyMs == Some(interval)
    requires 0 < interval && 0 <= now && now + interval <= MAX_INT64
    requires Apart(log, id, 0, now) && JobsApart(jobs, log, id, interval)
    ensures forall other, enabled :: JobsApart(Switched(tick, jobs, other, enabled, now), log, id, interval)
    ensures forall other, start, ok :: JobsApart(Finished(tick, jobs, other, start, ok, now), log, id, interval)
    ensures forall other :: JobsApart(Without(jobs, other), log, id, interval)
  {
    ComputedApart(tick, known[id], log, id, interval, now);
    forall other ensures JobsApart(Without(jobs, other), log, id, interval) {
      RemovalApart(jobs, other, log, id, interval, known);
    }
    hide ComputeNextRun, Apart, Without;
  }

  lemma RemovalApart(jobs: seq<Job>, other: string, log: seq<Invocation>, id: string, interval: int, known: map<string, Schedule>)
    requires Registered(jobs, known) && JobsApart(jobs, log, id, interval)
    ensures JobsApart(Without(jobs, other), log, id, interval)
  {
    WithoutIsRegistered(jobs, other, known);
    hide Apart, Registered, Without;
    var kept := Without(jobs, other);
    forall k | 0 <= k < |kept| && kept[k].id == id && kept[k].enabled && kept[k].nextRun.Some?
      ensures Apart(log, id, interval, kept[k].nextRun.value)
    {
      var i :| 0 <= i < |jobs| && jobs[i] == kept[k];
    }
  }

  // ---------- Every event keeps the spacing ----------

  lemma OtherLogEntry(log: seq<Invocation>, entry: Invocation, id: string, interval: int)
    requires LogApart(log, id, interval)
    requires entry.id == id ==> Apart(log, id, interval, entry.start)
    ensures LogApart(log + [entry], id, interval)
    ensures forall d, time :: entry.id != id ==> (Apart(log + [entry], id, d, time) <==> Apart(log, id, d, time))
  {
    var log' := log + [entry];
    assert forall i :: 0 <= i < |log| ==> log'[i] == log[i];
    if entry.id != id {
      forall d, time ensures Apart(log', id, d, time) <==> Apart(log, id, d, time) {
        assert Apart(log', id, d, time) ==> forall i :: 0 <= i < |log| && log[i].id == id ==> log'[i].start + d <= time;
      }
    }
  }

  lemma TickKeepsSpaced(s: State, saveOk: bool, id: string, interval: int)
    requires IdsKnown(s) && Spaced(s, id, interval) && s.loops != []
    requires s.loops[0].phase == Idle && s.loops[0].queue == []
    ensures Spaced(AfterTick(s, 0, saveOk), id, interval)
  {
    DueCount(s.jobs, s.clock, id);
    if s.running && HasDue(s.jobs, s.clock, id) {
      DueApart(s.jobs, s.log, id, interval, s.clock);
    }
    hide Apart, HasDue, DueIds, Registered, LogApart;
  }

  lemma DueApart(jobs: seq<Job>, log: seq<Invocation>, id: string, interval: int, now: int)
    requires JobsApart(jobs, log, id, interval) && HasDue(jobs, now, id)
    ensures Apart(log, id, interval, now)
  {
    var k :| 0 <= k < |jobs| && jobs[k].id == id && IsDue(jobs[k], now);
    assert Apart(log, id, interval, jobs[k].nextRun.value);
  }

  lemma TakeKeepsSpaced(s: State, id: string, interval: int)
    requires Spaced(s, id, interval) && s.loops != []
    requires s.loops[0].phase == Idle && s.loops[0].queue != []
    ensures Spaced(AfterTake(s, 0), id, interval)
  {
    hide Apart, LogApart, JobsApart;
    var queue := s.loops[0].queue;
    assert queue == [queue[0]] + queue[1..];
    assert multiset(queue)[id] == multiset(queue[1..])[id] + if queue[0] == id then 1 else 0;
    assert id in queue[1..] ==> id in queue;
  }

  lemma LookupKeepsSpaced(s: State, id: string, interval: int)
    requires Spaced(s, id, interval) && s.loops != [] && s.loops[0].phase.Taken?
    ensures Spaced(AfterLookup(s, 0), id, interval)
  {
    var p := s.loops[0].phase;
    OtherLogEntry(s.log, Invocation(p.id, p.start), id, interval);
    hide LogApart, IndexOf;
    if p.id == id {
      hide JobsApart;
    } else {
      hide Apart;
    }
  }

  lemma FinishKeepsSpaced(tick: NextTick, s: State, ok: bool, saveOk: bool, id: string, interval: int)
    requires IdsKnown(s) && Spaced(s, id, interval) && s.loops != [] && s.loops[0].phase.Running?
    requires IsEvery(s, id, interval) && 0 < interval && s.clock + interval <= MAX_INT64
    ensures Spaced(AfterFinish(tick, s, 0, ok, saveOk), id, interval)
  {
    var p := s.loops[0].phase;
    if id in s.known {
      if p.id == id {
        SectionsArmApart(tick, s.jobs, s.log, id, interval, s.clock, s.known);
      } else if s.running {
        SectionsApart(tick, s.jobs, s.log, id, interval, s.clock, s.known);
      }
    } else {
      FinishedIsRegistered(tick, s.jobs, p.id, p.start, ok, s.clock, s.known);
    }
    hide Apart, LogApart, Finished, IndexOf;
  }

  lemma UnknownJobsApart(jobs: seq<Job>, known: map<string, Schedule>, log: seq<Invocation>, id: string, interval: int)
    requires Registered(jobs, known) && id !in known
    ensures JobsApart(jobs, log, id, interval)
  {
  }

  lemma JobStepKeepsSpaced(
    tick: NextTick, s: State, id': string, enabled: bool, saveOk: bool, id: string, interval: int)
    requires IdsKnown(s) && Spaced(s, id, interval)
    requires IsEvery(s, id, interval) && 0 < interval && s.clock + interval <= MAX_INT64
    ensures Spaced(AfterRemove(s, id', saveOk), id, interval)
    ensures Spaced(AfterEnable(tick, s, id', enabled, saveOk), id, interval)
  {
    if id in s.known {
      if s.running && !Busy(s, id) {
        SectionsApart(tick, s.jobs, s.log, id, interval, s.clock, s.known);
      }
    } else {
      JobStepIdsKnown(tick, s, id', enabled, saveOk);
      UnknownJobsApart(AfterRemove(s, id', saveOk).jobs, s.known, s.log, id, interval);
      UnknownJobsApart(AfterEnable(tick, s, id', enabled, saveOk).jobs, s.known, s.log, id, interval);
    }
    hide Apart, LogApart, LoopApart, JobsApart, Switched, Without, IndexOf, Registered;
  }

  lemma AddKeepsSpaced(tick: NextTick, s: State, id': string, schedule: Schedule, saveOk: bool, id: string, interval: int)
    requires IdsKnown(s) && Spaced(s, id, interval) && id' !in s.known
    ensures Spaced(AfterAdd(tick, s, id', schedule, saveOk), id, interval)
  {
    hide ComputeNextRun, LogApart, LoopApart;
    forall d, time ensures id == id' ==> Apart(s.log, id, d, time) {
    }
    hide Apart;
  }

  lemma StartKeepsSpaced(tick: NextTick, s: State, loadOk: bool, saveOk: bool, id: string, interval: int)
    requires IdsKnown(s) && Spaced(s, id, interval)
    requires IsEvery(s, id, interval) && 0 < interval && s.clock + interval <= MAX_INT64
    requires |AfterStart(tick, s, loadOk, saveOk).loops| <= 1
    ensures Spaced(AfterStart(tick, s, loadOk, saveOk), id, interval)
  {
    if id in s.known {
      SectionsArmApart(tick, s.disk, s.log, id, interval, s.clock, s.known);
    } else {
      RegisteredFrom(s.disk, Recomputed(tick, s.disk, s.clock), s.known);
      UnknownJobsApart(Recomputed(tick, s.disk, s.clock), s.known, s.log, id, interval);
    }
    hide Apart, LogApart, JobsApart, Recomputed, Registered;
  }

  lemma EndKeepsSpaced(s: State, loadOk: bool, id: string, interval: int)
    requires Spaced(s, id, interval)
    ensures Spaced(AfterStop(s), id, interval) && Spaced(AfterCrash(s, loadOk), id, interval)
    ensures s.loops != [] && s.loops[0].phase == Idle ==> Spaced(AfterExit(s, 0), id, interval)
  {
    hide Apart, LogApart, JobsApart;
  }

  lemma NextKeepsSpaced(tick: NextTick, s0: State, e: Timed, id: string, interval: int)
    requires IdsKnown(s0) && Possible(s0, e) && Spaced(s0, id, interval) && |Next(tick, s0, e).loops| <= 1
    requires IsEvery(s0, id, interval) && 0 < interval && e.now + interval <= MAX_INT64
    ensures Spaced(Next(tick, s0, e), id, interval)
  {
    hide AfterTick, AfterTake, AfterLookup, AfterFinish, AfterExit, AfterAdd, AfterRemove, AfterEnable, AfterStart, AfterStop, AfterCrash;
    var s := s0.(clock := e.now);
    LaterIsSpaced(s0, e.now, id, interval);
    assert IdsKnown(s) && IsEvery(s, id, interval) && |s.loops| <= 1;
    hide IdsKnown, Spaced, IsEvery;
    match e.event
    case Tick(_, saveOk) => TickKeepsSpaced(s, saveOk, id, interval);
    case Take(_) => TakeKeepsSpaced(s, id, interval);
    case Lookup(_) => LookupKeepsSpaced(s, id, interval);
    case Finish(_, ok, saveOk) => FinishKeepsSpaced(tick, s, ok, saveOk, id, interval);
    case Exit(_) => EndKeepsSpaced(s, true, id, interval);
    case Add(id', schedule, saveOk) => AddKeepsSpaced(tick, s, id', schedule, saveOk, id, interval);
    case Remove(id', saveOk) => JobStepKeepsSpaced(tick, s, id', true, saveOk, id, interval);
    case Enable(id', enabled, saveOk) => JobStepKeepsSpaced(tick, s, id', enabled, saveOk, id, interval);
    case Start(loadOk, saveOk) => StartKeepsSpaced(tick, s, loadOk, saveOk, id, interval);
    case Stop => EndKeepsSpaced(s, true, id, interval);
    case Crash(loadOk) => EndKeepsSpaced(s, loadOk, id, interval);
  }

  lemma LaterIsSpaced(s: State, now: int, id: string, interval: int)
    requires Spaced(s, id, interval) && s.clock <= now
    ensures Spaced(s.(clock := now), id, interval)
  {
    hide JobsApart, LogApart;
  }

  // ---------- Whole runs ----------

  /** An id keeps the schedule it was added with. */
  lemma {:induction false} RunKeepsSchedules(tick: NextTick, s: State, events: seq<Timed>, s': State, id: string)
    requires IsBoundedRun(tick, s, events, s', 1) && id in s.known
    ensures id in s'.known && s'.known[id] == s.known[id]
    decreases |events|
  {
    if events != [] {
      RunKeepsSchedules(tick, Next(tick, s, events[0]), events[1..], s', id);
    }
  }

  lemma {:induction false} RunClock(tick: NextTick, s: State, events: seq<Timed>, s': State)
    requires IsBoundedRun(tick, s, events, s', 1)
    ensures s.clock <= s'.clock
    ensures events != [] ==> events[0].now <= s'.clock
    decreases |events|
  {
    if events != [] {
      RunClock(tick, Next(tick, s, events[0]), events[1..], s');
    }
  }

  lemma {:induction false} RunKeepsSpaced(
    tick: NextTick, s: State, events: seq<Timed>, s': State, id: string, interval: int)
    requires IsBoundedRun(tick, s, events, s', 1) && IdsKnown(s) && Spaced(s, id, interval)
    requires IsEvery(s', id, interval) && id in s'.known && 0 < interval && s'.clock + interval <= MAX_INT64
    ensures Spaced(s', id, interval)
    decreases |events|
  {
    if id in s.known {
      RunKeepsSchedules(tick, s, events, s', id);
    }
    RunClock(tick, s, events, s');
    hide IdsKnown, Spaced, Next, Possible;
    if events != [] {
      NextIdsKnown(tick, s, events[0]);
      NextKeepsSpaced(tick, s, events[0], id, interval);
      RunKeepsSpaced(tick, Next(tick, s, events[0]), events[1..], s', id, interval);
    }
  }

  /**
    On every run with at most one run loop at a time, any two starts of the handler of an
    "every" job are at least its interval apart, whatever users and failures do meanwhile.
   */
  lemma EveryJobIsSpaced(tick: NextTick, events: seq<Timed>, s: State, id: string, interval: int)
    requires IsBoundedRun(tick, INITIAL, events, s, 1)
    requires id in s.known && s.known[id].kind == Every && s.known[id].everyMs == Some(interval)
    requires 0 < interval && s.clock + interval <= MAX_INT64
    ensures LogApart(s.log, id, interval)
  {
    RunKeepsSpaced(tick, INITIAL, events, s, id, interval);
  }

  // ---------- Runs on which the spacing fails ----------

  const JOB := "job"

  /** A running service with one job, the same in memory and on disk. */
  function Serving(clock: int, job: Job, loops: seq<Loop>, log: seq<Invocation>): State {
    State([job], [job], true, clock, loops, map[JOB := job.schedule], log)
  }

  lemma OneEvent(tick: NextTick, s: State, e: Timed, n: nat)
    requires Possible(s, e) && |s.loops| <= n && |Next(tick, s, e).loops| <= n
    ensures IsBoundedRun(tick, s, [e], Next(tick, s, e), n)
  {
    hide Next, Possible;
    assert [e][1..] == [];
  }

  lemma {:induction false} RunsConcat(
    tick: NextTick, s: State, a: seq<Timed>, s': State, b: seq<Timed>, s'': State, n: nat)
    requires IsBoundedRun(tick, s, a, s', n) && IsBoundedRun(tick, s', b, s'', n)
    ensures IsBoundedRun(tick, s, a + b, s'', n)
    decreases |a|
  {
    hide Next, Possible;
    if a == [] {
      assert a + b == b;
    } else {
      assert (a + b)[1..] == a[1..] + b;
      RunsConcat(tick, Next(tick, s, a[0]), a[1..], s', b, s'', n);
    }
  }

  /** A tick of loop l collects the job. */
  lemma CollectsJob(tick: NextTick, clock: int, job: Job, loops: seq<Loop>, log: seq<Invocation>, l: nat, now: int, n: nat)
    requires l < |loops| <= n && loops[l].phase == Idle && loops[l].queue == [] && clock <= now
    requires job.id == JOB && IsDue(job, now)
    ensures IsBoundedRun(tick, Serving(clock, job, loops, log), [Timed(Tick(l, true), now)],
              Serving(now, job.(nextRun := None), loops[l := loops[l].(queue := [JOB])], log), n)
  {
    assert [job][..0] == [];
    assert DueIds([job], now) == [JOB];
    assert Disarmed([job], [JOB]) == [job.(nextRun := None)];
    hide IsBoundedRun;
    OneEvent(tick, Serving(clock, job, loops, log), Timed(Tick(l, true), now), n);
  }

  /** Loop l takes the job from its queue and invokes the handler. */
  lemma InvokesJob(tick: NextTick, clock: int, job: Job, loops: seq<Loop>, log: seq<Invocation>, l: nat, now: int, n: nat)
    requires l < |loops| <= n && loops[l].phase == Idle && loops[l].queue == [JOB] && clock <= now && job.id == JOB
    ensures IsBoundedRun(tick, Serving(clock, job, loops, log), [Timed(Take(l), now), Timed(Lookup(l), now)],
              Serving(now, job, loops[l := Loop([], Running(JOB, now), loops[l].stopped)], log + [Invocation(JOB, now)]), n)
  {
    var s, loop := Serving(clock, job, loops, log), loops[l];
    assert loop.queue[1..] == [];
    var s1 := Serving(now, job, loops[l := Loop([], Taken(JOB, now), loop.stopped)], log);
    assert Next(tick, s, Timed(Take(l), now)) == s1;
    var running := loops[l := Loop([], Running(JOB, now), loop.stopped)];
    assert s1.loops[l := Loop([], Running(JOB, now), loop.stopped)] == running;
    assert Next(tick, s1, Timed(Lookup(l), now)) == Serving(now, job, running, log + [Invocation(JOB, now)]);
    OneEvent(tick, s, Timed(Take(l), now), n);
    OneEvent(tick, s1, Timed(Lookup(l), now), n);
    hide IsBoundedRun;
    RunsConcat(tick, s, [Timed(Take(l), now)], s1, [Timed(Lookup(l), now)], Next(tick, s1, Timed(Lookup(l), now)), n);
  }

  function Rearmed(tick: NextTick, job: Job, start: int, now: int): Job {
    job.(lastRun := Some(start), lastOk := Some(true), nextRun := ComputeNextRun(tick, job.schedule, now))
  }

  /** The handler of loop l ends. */
  lemma FinishesJob(tick: NextTick, clock: int, job: Job, start: int, log: seq<Invocation>, now: int)
    requires clock <= now && job.id == JOB && job.schedule.kind == Every
    ensures IsBoundedRun(tick, Serving(clock, job, [Loop([], Running(JOB, start), false)], log),
              [Timed(Finish(0, true, true), now)],
              Serving(now, Rearmed(tick, job, start, now), [Loop([], Idle, false)], log), 1)
  {
    hide ComputeNextRun;
    var s := Serving(clock, job, [Loop([], Running(JOB, start), false)], log);
    assert [job][0 := Rearmed(tick, job, start, now)] == [Rearmed(tick, job, start, now)];
    assert s.loops[0 := Loop([], Idle, false)] == [Loop([], Idle, false)];
    OneEvent(tick, s, Timed(Finish(0, true, true), now), 1);
  }

  /** The service starts and gets its job. */
  lemma StartsWithJob(tick: NextTick, schedule: Schedule, now: int, n: nat)
    requires 0 <= now && 1 <= n
    ensures IsBoundedRun(tick, INITIAL, [Timed(Start(true, true), now), Timed(Add(JOB, schedule, true), now)],
              Serving(now, NewJob(tick, JOB, schedule, now), [Loop([], Idle, false)], []), n)
  {
    hide ComputeNextRun;
    var s1 := State([], [], true, now, [Loop([], Idle, false)], map[], []);
    var start, add := Timed(Start(true, true), now), Timed(Add(JOB, schedule, true), now);
    assert Next(tick, INITIAL, start) == s1;
    var s2 := Serving(now, NewJob(tick, JOB, schedule, now), [Loop([], Idle, false)], []);
    assert Next(tick, s1, add) == s2;
    OneEvent(tick, INITIAL, start, n);
    OneEvent(tick, s1, add, n);
    hide IsBoundedRun;
    RunsConcat(tick, INITIAL, [start], s1, [add], s2, n);
    assert [start] + [add] == [start, add];
  }

  /** A tick, the handler's start, and from an idle loop back to one. */
  lemma RunsOnce(tick: NextTick, job: Job, log: seq<Invocation>, now: int) returns (events: seq<Timed>)
    requires job.id == JOB && IsDue(job, now)
    ensures IsBoundedRun(tick, Serving(now, job, [Loop([], Idle, false)], log), events,
              Serving(now, job.(nextRun := None), [Loop([], Running(JOB, now), false)], log + [Invocation(JOB, now)]), 1)
  {
    var idle, taken, busy := [Loop([], Idle, false)], [Loop([JOB], Idle, false)], [Loop([], Running(JOB, now), false)];
    assert idle[0 := Loop([JOB], Idle, false)] == taken && taken[0 := Loop([], Running(JOB, now), false)] == busy;
    var s1, s2 := Serving(now, job, idle, log), Serving(now, job.(nextRun := None), taken, log);
    CollectsJob(tick, now, job, idle, log, 0, now, 1);
    InvokesJob(tick, now, job.(nextRun := None), taken, log, 0, now, 1);
    hide IsBoundedRun;
    events := [Timed(Tick(0, true), now)] + [Timed(Take(0), now), Timed(Lookup(0), now)];
    RunsConcat(tick, s1, [Timed(Tick(0, true), now)], s2, [Timed(Take(0), now), Timed(Lookup(0), now)],
      Serving(now, job.(nextRun := None), busy, log + [Invocation(JOB, now)]), 1);
  }

  /** With one run loop: when the sum overflows, the handler starts twice at the same time. */
  lemma OverflowBreaksSpacing(tick: NextTick, interval: int, now: int) returns (events: seq<Timed>, s: State)
    requires 0 < interval <= MAX_INT64 && 0 <= now <= MAX_INT64 && MAX_INT64 < now + interval
    ensures IsBoundedRun(tick, INITIAL, events, s, 1) && s.clock == now
    ensures JOB in s.known && s.known[JOB] == EverySchedule(interval)
    ensures s.log == [Invocation(JOB, now), Invocation(JOB, now)]
    ensures !LogApart(s.log, JOB, interval)
  {
    var schedule := EverySchedule(interval);
    var job := NewJob(tick, JOB, schedule, now);
    var first, idle := [Invocation(JOB, now)], [Loop([], Idle, false)];
    var late := Rearmed(tick, job.(nextRun := None), now, now);
    OverflowIsDueAtOnce(tick, JOB, interval, now);
    assert IsDue(late, now);
    var s1, s3 := Serving(now, job, idle, []), Serving(now, late, idle, first);
    var s2 := Serving(now, job.(nextRun := None), [Loop([], Running(JOB, now), false)], first);
    s := Serving(now, late.(nextRun := None), [Loop([], Running(JOB, now), false)], first + [Invocation(JOB, now)]);
    StartsWithJob(tick, schedule, now, 1);
    var run1 := RunsOnce(tick, job, [], now);
    FinishesJob(tick, now, job.(nextRun := None), now, first, now);
    var run2 := RunsOnce(tick, late, first, now);
    hide IsBoundedRun, ComputeNextRun;
    assert [] + [Invocation(JOB, now)] == first;
    events := [Timed(Start(true, true), now), Timed(Add(JOB, schedule, true), now)];
    RunsConcat(tick, INITIAL, events, s1, run1, s2, 1);
    RunsConcat(tick, INITIAL, events + run1, s2, [Timed(Finish(0, true, true), now)], s3, 1);
    RunsConcat(tick, INITIAL, events + run1 + [Timed(Finish(0, true, true), now)], s3, run2, s, 1);
    events := events + run1 + [Timed(Finish(0, true, true), now)] + run2;
    assert s.log[0].start + interval > s.log[1].start;
  }

  /** The service is stopped and started again while its loop has the job in its queue. */
  lemma StopsAndStarts(tick: NextTick, job: Job, now: int)
    requires job.id == JOB && job.enabled
    ensures IsBoundedRun(tick, Serving(now, job, [Loop([JOB], Idle, false)], []),
              [Timed(Stop, now), Timed(Start(true, true), now)],
              Serving(now, job.(nextRun := ComputeNextRun(tick, job.schedule, now)),
                [Loop([JOB], Idle, true), Loop([], Idle, false)], []), 2)
  {
    hide ComputeNextRun;
    var s1 := Serving(now, job, [Loop([JOB], Idle, false)], []);
    var s2 := Serving(now, job, [Loop([JOB], Idle, true)], []).(running := false);
    var stop, start := Timed(Stop, now), Timed(Start(true, true), now);
    assert Next(tick, s1, stop) == s2;
    var armed := job.(nextRun := ComputeNextRun(tick, job.schedule, now));
    assert Recomputed(tick, [job], now) == [armed];
    var s3 := Serving(now, armed, [Loop([JOB], Idle, true), Loop([], Idle, false)], []);
    assert Next(tick, s2, start) == s3;
    OneEvent(tick, s1, stop, 2);
    OneEvent(tick, s2, start, 2);
    hide IsBoundedRun;
    RunsConcat(tick, s1, [stop], s2, [start], s3, 2);
    assert [stop] + [start] == [stop, start];
  }

  /** A tick collects the job; before its handler is invoked, the service is stopped and started again. */
  lemma RestartsWithCollectedJob(tick: NextTick, job: Job) returns (events: seq<Timed>)
    requires job == NewJob(tick, JOB, EverySchedule(10), 0)
    ensures IsBoundedRun(tick, INITIAL, events,
              Serving(10, job.(nextRun := Some(20)), [Loop([JOB], Idle, true), Loop([], Idle, false)], []), 2)
  {
    var idle, taken := [Loop([], Idle, false)], [Loop([JOB], Idle, false)];
    var unarmed := job.(nextRun := None);
    assert idle[0 := Loop([JOB], Idle, false)] == taken;
    var s1, s2 := Serving(0, job, idle, []), Serving(10, unarmed, taken, []);
    var s3 := Serving(10, job.(nextRun := Some(20)), [Loop([JOB], Idle, true), Loop([], Idle, false)], []);
    StartsWithJob(tick, EverySchedule(10), 0, 2);
    CollectsJob(tick, 0, job, idle, [], 0, 10, 2);
    StopsAndStarts(tick, unarmed, 10);
    hide IsBoundedRun;
    assert unarmed.(nextRun := Some(20)) == job.(nextRun := Some(20));
    events := [Timed(Start(true, true), 0), Timed(Add(JOB, EverySchedule(10), true), 0)];
    RunsConcat(tick, INITIAL, events, s1, [Timed(Tick(0, true), 10)], s2, 2);
    events := events + [Timed(Tick(0, true), 10)];
    RunsConcat(tick, INITIAL, events, s2, [Timed(Stop, 10), Timed(Start(true, true), 10)], s3, 2);
    events := events + [Timed(Stop, 10), Timed(Start(true, true), 10)];
  }

  /** After that restart: the old loop runs the handler late, just before the new loop does. */
  lemma OldLoopRunsLate(tick: NextTick, job: Job, s1: State, s: State) returns (events: seq<Timed>)
    requires job.id == JOB && job.enabled && job.nextRun == Some(20)
    requires s1 == Serving(10, job, [Loop([JOB], Idle, true), Loop([], Idle, false)], [])
    requires s == Serving(20, job.(nextRun := None), [Loop([], Running(JOB, 19), true), Loop([], Running(JOB, 20), false)],
                    [Invocation(JOB, 19), Invocation(JOB, 20)])
    ensures IsBoundedRun(tick, s1, events, s, 2)
  {
    var idle, left, busy := Loop([], Idle, false), Loop([JOB], Idle, true), Loop([], Running(JOB, 19), true);
    var first, taken := [Invocation(JOB, 19)], Loop([JOB], Idle, false);
    assert [left, idle][0 := busy] == [busy, idle] && [busy, idle][1 := taken] == [busy, taken];
    assert [busy, taken][1 := Loop([], Running(JOB, 20), false)] == s.loops;
    assert [] + first == first && first + [Invocation(JOB, 20)] == s.log;
    var s2, s3 := Serving(19, job, [busy, idle], first), Serving(20, job.(nextRun := None), [busy, taken], first);
    InvokesJob(tick, 10, job, [left, idle], [], 0, 19, 2);
    CollectsJob(tick, 19, job, [busy, idle], first, 1, 20, 2);
    InvokesJob(tick, 20, job.(nextRun := None), [busy, taken], first, 1, 20, 2);
    hide IsBoundedRun;
    events := [Timed(Take(0), 19), Timed(Lookup(0), 19)];
    RunsConcat(tick, s1, events, s2, [Timed(Tick(1, true), 20)], s3, 2);
    events := events + [Timed(Tick(1, true), 20)];
    RunsConcat(tick, s1, events, s3, [Timed(Take(1), 20), Timed(Lookup(1), 20)], s, 2);
    events := events + [Timed(Take(1), 20), Timed(Lookup(1), 20)];
  }

  /**
    With two run loops the spacing can fail: a loop that was stopped with a collected job runs
    its handler late, just before the new loop does.
   */
  lemma TwoLoopsBreakSpacing(tick: NextTick) returns (events: seq<Timed>, s: State)
    ensures IsBoundedRun(tick, INITIAL, events, s, 2)
    ensures JOB in s.known && s.known[JOB] == EverySchedule(10) && s.clock == 20
    ensures s.log == [Invocation(JOB, 19), Invocation(JOB, 20)]
    ensures !LogApart(s.log, JOB, 10)
  {
    var job := NewJob(tick, JOB, EverySchedule(10), 0);
    var armed := job.(nextRun := Some(20));
    var s1 := Serving(10, armed, [Loop([JOB], Idle, true), Loop([], Idle, false)], []);
    s := Serving(20, armed.(nextRun := None), [Loop([], Running(JOB, 19), true), Loop([], Running(JOB, 20), false)],
      [Invocation(JOB, 19), Invocation(JOB, 20)]);
    hide IsBoundedRun;
    events := RestartsWithCollectedJob(tick, job);
    var late := OldLoopRunsLate(tick, armed, s1, s);
    RunsConcat(tick, INITIAL, events, s1, late, s, 2);
    events := events + late;
    assert s.log[0].start + 10 > s.log[1].start;
  }

  // ---------- Exactly when the spacing holds ----------

  /** The starts of an "every" job are apart on a run, if the state it leads to has the job. */
  ghost predicate IsSpaced(s: State, id: string, interval: int) {
    id in s.known && s.known[id].kind == Every && s.known[id].everyMs == Some(interval) ==> LogApart(s.log, id, interval)
  }

  /** All runs with at most n run loops at a time, and clock readings of at most `horizon`, are spaced. */
  ghost predicate SpacedUntil(tick: NextTick, n: nat, interval: int, horizon: int) {
    forall events, s, id :: IsBoundedRun(tick, INITIAL, events, s, n) && s.clock <= horizon ==> IsSpaced(s, id, interval)
  }

  /** With one run loop, jobs keep an interval up to a time if and only if the sum of both fits 64 bits. */
  lemma SingleLoopIsSpacedIff(tick: NextTick, interval: int, horizon: int)
    requires 0 < interval <= MAX_INT64 && 0 <= horizon <= MAX_INT64
    ensures SpacedUntil(tick, 1, interval, horizon) <==> horizon + interval <= MAX_INT64
  {
    hide IsBoundedRun, LogApart;
    if horizon + interval <= MAX_INT64 {
      forall events, s, id | IsBoundedRun(tick, INITIAL, events, s, 1) && s.clock <= horizon
        ensures IsSpaced(s, id, interval)
      {
        if !IsSpaced(s, id, interval) {
          EveryJobIsSpaced(tick, events, s, id, interval);
        }
      }
    } else {
      var events, s := OverflowBreaksSpacing(tick, interval, horizon);
      assert !IsSpaced(s, JOB, interval);
    }
  }

  /** Without overflow: n run loops at a time keep all intervals if and only if n is at most one. */
  lemma LoopsAreSpacedIff(tick: NextTick, n: nat)
    ensures (forall interval, horizon :: 0 < interval && horizon + interval <= MAX_INT64 ==> SpacedUntil(tick, n, interval, horizon))
            <==> n <= 1
  {
    hide IsBoundedRun, LogApart;
    if n <= 1 {
      forall interval, horizon | 0 < interval && horizon + interval <= MAX_INT64 ensures SpacedUntil(tick, n, interval, horizon) {
        forall events, s, id | IsBoundedRun(tick, INITIAL, events, s, n) && s.clock <= horizon
          ensures IsSpaced(s, id, interval)
        {
          FewerLoops(tick, INITIAL, events, s, n, 1);
          if !IsSpaced(s, id, interval) {
            EveryJobIsSpaced(tick, events, s, id, interval);
          }
        }
      }
    } else {
      var events, s := TwoLoopsBreakSpacing(tick);
      FewerLoops(tick, INITIAL, events, s, 2, n);
      assert !IsSpaced(s, JOB, 10);
      assert !SpacedUntil(tick, n, 10, 20);
    }
  }

  lemma {:induction false} FewerLoops(tick: NextTick, s: State, events: seq<Timed>, s': State, n: nat, m: nat)
    requires IsBoundedRun(tick, s, events, s', n) && n <= m
    ensures IsBoundedRun(tick, s, events, s', m)
    decreases |events|
  {
    hide Next, Possible;
    if events != [] {
      FewerLoops(tick, Next(tick, s, events[0]), events[1..], s', n, m);
    }
  }
}
