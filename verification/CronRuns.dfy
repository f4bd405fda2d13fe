/**
  Runs of the job scheduler (pkg/cron/service.go): the locked sections of ticks, of the
  handler's start and end, and of user operations interleave in any order, saves can fail,
  and the process can crash and restart.

  A run loop takes the ids that its tick collected, one by one, and for each reads the clock,
  looks the job up, runs the handler and records the end. A loop that was stopped may still be
  busy when a new one is started, and may even tick once more.
 */
module CronRuns {
  import opened Common
  import opened CronService

  datatype Phase =
    | Idle
    | Taken(id: string, start: int)    // the clock is read, the job not looked up yet
    | Running(id: string, start: int)  // the handler was invoked

  datatype Loop = Loop(queue: seq<string>, phase: Phase, stopped: bool)

  datatype Invocation = Invocation(id: string, start: int)

  /** `known` has the schedule of every id ever given to a job; `log` has the handler's invocations. */
  datatype State = State(
    jobs: seq<Job>,
    disk: seq<Job>,
    running: bool,
    clock: int,
    loops: seq<Loop>,
    known: map<string, Schedule>,
    log: seq<Invocation>)

  datatype Event =
    | Tick(loop: nat, saveOk: bool)
    | Take(loop: nat)
    | Lookup(loop: nat)
    | Finish(loop: nat, ok: bool, saveOk: bool)
    | Exit(loop: nat)
    | Add(id: string, schedule: Schedule, saveOk: bool)
    | Remove(id: string, saveOk: bool)
    | Enable(id: string, enabled: bool, saveOk: bool)
    | Start(loadOk: bool, saveOk: bool)
    | Stop
    | Crash(loadOk: bool)

  /** An event and the clock reading of its section. */
  datatype Timed = Timed(event: Event, now: int)

  const INITIAL := State([], [], false, 0, [], map[], [])

  /** When an event can happen: the clock does not go back, ids are new, loops do one thing after the other. */
  predicate Possible(s: State, e: Timed) {
    && s.clock <= e.now
    && match e.event
       case Tick(l, _) => l < |s.loops| && s.loops[l].phase == Idle && s.loops[l].queue == []
       case Take(l) => l < |s.loops| && s.loops[l].phase == Idle && s.loops[l].queue != []
       case Lookup(l) => l < |s.loops| && s.loops[l].phase.Taken?
       case Finish(l, _, _) => l < |s.loops| && s.loops[l].phase.Running?
       case Exit(l) => l < |s.loops| && s.loops[l].phase == Idle && s.loops[l].queue == [] && s.loops[l].stopped
       case Add(id, _, _) => id !in s.known
       case _ => true
  }

  function Saved(s: State, ok: bool): State {
    if ok then s.(disk := s.jobs) else s
  }

  function SetLoop(s: State, l: nat, loop: Loop): State
    requires l < |s.loops|
  {
    s.(loops := s.loops[l := loop])
  }

  function AllStopped(loops: seq<Loop>): (loops': seq<Loop>)
    ensures |loops'| == |loops|
  {
    seq(|loops|, i requires 0 <= i < |loops| => loops[i].(stopped := true))
  }

  // Each section reads the clock that the state shows.

  function AfterTick(s: State, l: nat, saveOk: bool): State
    requires l < |s.loops|
  {
    if !s.running then s
    else
      var due := DueIds(s.jobs, s.clock);
      Saved(SetLoop(s.(jobs := Disarmed(s.jobs, due)), l, s.loops[l].(queue := due)), saveOk)
  }

  function AfterTake(s: State, l: nat): State
    requires l < |s.loops| && s.loops[l].queue != []
  {
    var loop := s.loops[l];
    SetLoop(s, l, loop.(queue := loop.queue[1..], phase := Taken(loop.queue[0], s.clock)))
  }

  function AfterLookup(s: State, l: nat): State
    requires l < |s.loops| && s.loops[l].phase.Taken?
  {
    var p := s.loops[l].phase;
    if IndexOf(s.jobs, p.id) == |s.jobs| then SetLoop(s, l, s.loops[l].(phase := Idle))
    else SetLoop(s, l, s.loops[l].(phase := Running(p.id, p.start))).(log := s.log + [Invocation(p.id, p.start)])
  }

  function AfterFinish(tick: NextTick, s: State, l: nat, ok: bool, saveOk: bool): State
    requires l < |s.loops| && s.loops[l].phase.Running?
  {
    var p := s.loops[l].phase;
    var jobs := Finished(tick, s.jobs, p.id, p.start, ok, s.clock);
    Saved(SetLoop(s.(jobs := jobs), l, s.loops[l].(phase := Idle)), saveOk && IndexOf(s.jobs, p.id) < |s.jobs|)
  }

  function AfterExit(s: State, l: nat): State
    requires l < |s.loops|
  {
    s.(loops := s.loops[..l] + s.loops[l + 1..])
  }

  function AfterAdd(tick: NextTick, s: State, id: string, schedule: Schedule, saveOk: bool): State {
    Saved(s.(jobs := s.jobs + [NewJob(tick, id, schedule, s.clock)], known := s.known[id := schedule]), saveOk)
  }

  function AfterRemove(s: State, id: string, saveOk: bool): State {
    var jobs := Without(s.jobs, id);
    Saved(s.(jobs := jobs), saveOk && |jobs| < |s.jobs|)
  }

  function AfterEnable(tick: NextTick, s: State, id: string, enabled: bool, saveOk: bool): State {
    Saved(s.(jobs := Switched(tick, s.jobs, id, enabled, s.clock)), saveOk && IndexOf(s.jobs, id) < |s.jobs|)
  }

  function AfterStart(tick: NextTick, s: State, loadOk: bool, saveOk: bool): State {
    if s.running then s
    else if !loadOk then s.(jobs := [])
    else
      var s' := s.(jobs := Recomputed(tick, s.disk, s.clock));
      if saveOk then Saved(s', true).(running := true, loops := s.loops + [Loop([], Idle, false)]) else s'
  }

  function AfterStop(s: State): State {
    s.(running := false, loops := if s.running then AllStopped(s.loops) else s.loops)
  }

  /** The process starts anew; it ignores a failure to read the store. */
  function AfterCrash(s: State, loadOk: bool): State {
    s.(jobs := if loadOk then s.disk else [], running := false, loops := [])
  }

  function Next(tick: NextTick, s0: State, e: Timed): State
    requires Possible(s0, e)
  {
    var s := s0.(clock := e.now);
    match e.event
    case Tick(l, saveOk) => AfterTick(s, l, saveOk)
    case Take(l) => AfterTake(s, l)
    case Lookup(l) => AfterLookup(s, l)
    case Finish(l, ok, saveOk) => AfterFinish(tick, s, l, ok, saveOk)
    case Exit(l) => AfterExit(s, l)
    case Add(id, schedule, saveOk) => AfterAdd(tick, s, id, schedule, saveOk)
    case Remove(id, saveOk) => AfterRemove(s, id, saveOk)
    case Enable(id, enabled, saveOk) => AfterEnable(tick, s, id, enabled, saveOk)
    case Start(loadOk, saveOk) => AfterStart(tick, s, loadOk, saveOk)
    case Stop => AfterStop(s)
    case Crash(loadOk) => AfterCrash(s, loadOk)
  }

  ghost predicate IsRun(tick: NextTick, s: State, events: seq<Timed>, s': State)
    decreases |events|
  {
    if events == [] then s == s'
    else Possible(s, events[0]) && IsRun(tick, Next(tick, s, events[0]), events[1..], s')
  }

  // ---------- Jobs and ids ----------

  ghost predicate UniqueIds(jobs: seq<Job>) {
    forall i, j :: 0 <= i < j < |jobs| ==> jobs[i].id != jobs[j].id
  }

  /** The jobs have known ids, each once, and the schedules they were added with. */
  ghost predicate Registered(jobs: seq<Job>, known: map<string, Schedule>) {
    && UniqueIds(jobs)
    && forall i :: 0 <= i < |jobs| ==> jobs[i].id in known && known[jobs[i].id] == jobs[i].schedule
  }

  lemma RegisteredFrom(jobs: seq<Job>, jobs': seq<Job>, known: map<string, Schedule>)
    requires Registered(jobs, known) && |jobs'| == |jobs|
    requires forall i :: 0 <= i < |jobs| ==> jobs'[i].id == jobs[i].id && jobs'[i].schedule == jobs[i].schedule
    ensures Registered(jobs', known)
  {
  }

  lemma {:induction false} WithoutIsRegistered(jobs: seq<Job>, id: string, known: map<string, Schedule>)
    requires Registered(jobs, known)
    ensures Registered(Without(jobs, id), known)
    ensures forall k :: 0 <= k < |Without(jobs, id)| ==> Without(jobs, id)[k] in jobs && Without(jobs, id)[k].id != id
    decreases |jobs|
  {
    if jobs != [] {
      var init := jobs[..|jobs| - 1];
      WithoutIsRegistered(init, id, known);
      assert jobs == init + [jobs[|jobs| - 1]];
      var kept := Without(init, id);
      forall k | 0 <= k < |kept| ensures kept[k].id != jobs[|jobs| - 1].id {
        var i :| 0 <= i < |init| && init[i] == kept[k];
      }
    }
  }

  lemma FinishedIsRegistered(
    tick: NextTick, jobs: seq<Job>, id: string, start: int, ok: bool, now: int, known: map<string, Schedule>)
    requires Registered(jobs, known)
    ensures Registered(Finished(tick, jobs, id, start, ok, now), known)
  {
    hide ComputeNextRun;
    WithoutIsRegistered(jobs, id, known);
  }

  /** Every id in sight is a known one. */
  ghost predicate IdsKnown(s: State) {
    && Registered(s.jobs, s.known)
    && Registered(s.disk, s.known)
    && (forall l :: 0 <= l < |s.loops| ==> LoopKnown(s.loops[l], s.known))
    && (forall i :: 0 <= i < |s.log| ==> s.log[i].id in s.known)
  }

  ghost predicate LoopKnown(loop: Loop, known: map<string, Schedule>) {
    && (forall i :: 0 <= i < |loop.queue| ==> loop.queue[i] in known)
    && (loop.phase.Idle? || loop.phase.id in known)
  }

  lemma {:induction false} DueIdsAreJobs(jobs: seq<Job>, now: int, known: map<string, Schedule>)
    requires Registered(jobs, known)
    ensures forall i :: 0 <= i < |DueIds(jobs, now)| ==> DueIds(jobs, now)[i] in known
    decreases |jobs|
  {
    if jobs != [] {
      DueIdsAreJobs(jobs[..|jobs| - 1], now, known);
    }
  }

  lemma TickIdsKnown(s: State, l: nat, saveOk: bool)
    requires IdsKnown(s) && l < |s.loops| && s.loops[l].phase == Idle
    ensures IdsKnown(AfterTick(s, l, saveOk))
  {
    DueIdsAreJobs(s.jobs, s.clock, s.known);
    RegisteredFrom(s.jobs, Disarmed(s.jobs, DueIds(s.jobs, s.clock)), s.known);
    hide Registered, Disarmed;
  }

  lemma LoopStepIdsKnown(s: State, l: nat)
    requires IdsKnown(s) && l < |s.loops|
    ensures s.loops[l].queue != [] ==> IdsKnown(AfterTake(s, l))
    ensures s.loops[l].phase.Taken? ==> IdsKnown(AfterLookup(s, l))
    ensures IdsKnown(AfterExit(s, l))
  {
    hide Registered, IndexOf;
    assert LoopKnown(s.loops[l], s.known);
  }

  lemma FinishIdsKnown(tick: NextTick, s: State, l: nat, ok: bool, saveOk: bool)
    requires IdsKnown(s) && l < |s.loops| && s.loops[l].phase.Running?
    ensures IdsKnown(AfterFinish(tick, s, l, ok, saveOk))
  {
    hide Registered, IndexOf, Finished;
    var p := s.loops[l].phase;
    FinishedIsRegistered(tick, s.jobs, p.id, p.start, ok, s.clock, s.known);
  }

  lemma AddIdsKnown(tick: NextTick, s: State, id: string, schedule: Schedule, saveOk: bool)
    requires IdsKnown(s) && id !in s.known
    ensures IdsKnown(AfterAdd(tick, s, id, schedule, saveOk))
  {
    hide ComputeNextRun;
  }

  lemma JobStepIdsKnown(tick: NextTick, s: State, id: string, enabled: bool, saveOk: bool)
    requires IdsKnown(s)
    ensures IdsKnown(AfterRemove(s, id, saveOk))
    ensures IdsKnown(AfterEnable(tick, s, id, enabled, saveOk))
  {
    hide ComputeNextRun;
    WithoutIsRegistered(s.jobs, id, s.known);
    RegisteredFrom(s.jobs, Switched(tick, s.jobs, id, enabled, s.clock), s.known);
    hide Registered, Switched;
  }

  lemma ServiceIdsKnown(tick: NextTick, s: State, loadOk: bool, saveOk: bool)
    requires IdsKnown(s)
    ensures IdsKnown(AfterStart(tick, s, loadOk, saveOk)) && IdsKnown(AfterStop(s)) && IdsKnown(AfterCrash(s, loadOk))
  {
    hide ComputeNextRun;
    RegisteredFrom(s.disk, Recomputed(tick, s.disk, s.clock), s.known);
    assert Registered([], s.known);
    hide Registered, Recomputed;
  }

  lemma NextIdsKnown(tick: NextTick, s0: State, e: Timed)
    requires IdsKnown(s0) && Possible(s0, e)
    ensures IdsKnown(Next(tick, s0, e))
  {
    hide AfterTick, AfterTake, AfterLookup, AfterFinish, AfterExit, AfterAdd, AfterRemove, AfterEnable, AfterStart, AfterStop, AfterCrash;
    var s := s0.(clock := e.now);
    assert IdsKnown(s);
    hide IdsKnown;
    match e.event
    case Tick(l, saveOk) => TickIdsKnown(s, l, saveOk);
    case Take(l) => LoopStepIdsKnown(s, l);
    case Lookup(l) => LoopStepIdsKnown(s, l);
    case Finish(l, ok, saveOk) => FinishIdsKnown(tick, s, l, ok, saveOk);
    case Exit(l) => LoopStepIdsKnown(s, l);
    case Add(id, schedule, saveOk) => AddIdsKnown(tick, s, id, schedule, saveOk);
    case Remove(id, saveOk) => JobStepIdsKnown(tick, s, id, true, saveOk);
    case Enable(id, enabled, saveOk) => JobStepIdsKnown(tick, s, id, enabled, saveOk);
    case Start(loadOk, saveOk) => ServiceIdsKnown(tick, s, loadOk, saveOk);
    case Stop => ServiceIdsKnown(tick, s, true, true);
    case Crash(loadOk) => ServiceIdsKnown(tick, s, loadOk, true);
  }

  // ---------- One-shot jobs ----------

  /** How often an id waits in a loop for its handler to be invoked. */
  function LoopUses(loop: Loop, id: string): nat {
    multiset(loop.queue)[id] + if loop.phase.Taken? && loop.phase.id == id then 1 else 0
  }

  function LoopsUse(loops: seq<Loop>, id: string): nat {
    if loops == [] then 0 else LoopsUse(loops[..|loops| - 1], id) + LoopUses(loops[|loops| - 1], id)
  }

  /** How often the handler was invoked for an id. */
  function Invocations(log: seq<Invocation>, id: string): nat {
    if log == [] then 0 else Invocations(log[..|log| - 1], id) + if log[|log| - 1].id == id then 1 else 0
  }

  function Uses(s: State, id: string): nat {
    LoopsUse(s.loops, id) + Invocations(s.log, id)
  }

  lemma {:induction false} SetLoopUses(loops: seq<Loop>, l: nat, loop: Loop, id: string)
    requires l < |loops|
    ensures LoopsUse(loops[l := loop], id) == LoopsUse(loops, id) - LoopUses(loops[l], id) + LoopUses(loop, id)
    decreases |loops|
  {
    var n := |loops| - 1;
    if l == n {
      assert loops[l := loop][..n] == loops[..n];
    } else {
      assert loops[l := loop][..n] == loops[..n][l := loop];
      SetLoopUses(loops[..n], l, loop, id);
    }
  }

  lemma {:induction false} RemoveLoopUses(loops: seq<Loop>, l: nat, id: string)
    requires l < |loops|
    ensures LoopsUse(loops[..l] + loops[l + 1..], id) == LoopsUse(loops, id) - LoopUses(loops[l], id)
    decreases |loops|
  {
    hide LoopUses;
    var n := |loops| - 1;
    var left := loops[..l] + loops[l + 1..];
    if l == n {
      assert left == loops[..n];
    } else {
      assert left[..n - 1] == loops[..n][..l] + loops[..n][l + 1..] && left[n - 1] == loops[n];
      RemoveLoopUses(loops[..n], l, id);
    }
  }

  lemma {:induction false} StoppedLoopsUse(loops: seq<Loop>, id: string)
    ensures LoopsUse(AllStopped(loops), id) == LoopsUse(loops, id)
    decreases |loops|
  {
    if loops != [] {
      var n := |loops| - 1;
      assert AllStopped(loops)[..n] == AllStopped(loops[..n]);
      StoppedLoopsUse(loops[..n], id);
    }
  }

  lemma {:induction false} UnknownIsUnused(s: State, id: string)
    requires IdsKnown(s) && id !in s.known
    ensures Uses(s, id) == 0
  {
    UnknownNotInLoops(s.loops, s.known, id);
    UnknownNotInLog(s.log, s.known, id);
  }

  lemma {:induction false} UnknownNotInLoops(loops: seq<Loop>, known: map<string, Schedule>, id: string)
    requires id !in known && forall l :: 0 <= l < |loops| ==> LoopKnown(loops[l], known)
    ensures LoopsUse(loops, id) == 0
    decreases |loops|
  {
    if loops != [] {
      var loop := loops[|loops| - 1];
      assert LoopKnown(loop, known);
      assert id !in loop.queue;
      UnknownNotInLoops(loops[..|loops| - 1], known, id);
    }
  }

  lemma {:induction false} UnknownNotInLog(log: seq<Invocation>, known: map<string, Schedule>, id: string)
    requires id !in known && forall i :: 0 <= i < |log| ==> log[i].id in known
    ensures Invocations(log, id) == 0
    decreases |log|
  {
    if log != [] {
      UnknownNotInLog(log[..|log| - 1], known, id);
    }
  }

  ghost predicate HasDue(jobs: seq<Job>, now: int, id: string) {
    exists k :: 0 <= k < |jobs| && jobs[k].id == id && IsDue(jobs[k], now)
  }

  lemma HasDueSnoc(jobs: seq<Job>, now: int, id: string)
    requires jobs != []
    ensures var last := jobs[|jobs| - 1];
            HasDue(jobs, now, id) <==> HasDue(jobs[..|jobs| - 1], now, id) || (last.id == id && IsDue(last, now))
  {
    var init := jobs[..|jobs| - 1];
    if HasDue(init, now, id) {
      var k :| 0 <= k < |init| && init[k].id == id && IsDue(init[k], now);
      assert jobs[k].id == id && IsDue(jobs[k], now);
    }
    if HasDue(jobs, now, id) {
      var k :| 0 <= k < |jobs| && jobs[k].id == id && IsDue(jobs[k], now);
      assert k < |init| ==> init[k] == jobs[k];
    }
  }

  /** A tick collects an id at most once, and only if its job is due. */
  lemma {:induction false} DueCount(jobs: seq<Job>, now: int, id: string)
    requires UniqueIds(jobs)
    ensures multiset(DueIds(jobs, now))[id] <= 1
    ensures id in DueIds(jobs, now) <==> HasDue(jobs, now, id)
    decreases |jobs|
  {
    if jobs != [] {
      var init, last := jobs[..|jobs| - 1], jobs[|jobs| - 1];
      DueCount(init, now, id);
      HasDueSnoc(jobs, now, id);
      assert last.id == id ==> !HasDue(init, now, id);
      hide HasDue, IsDue;
      assert id !in DueIds(init, now) ==> multiset(DueIds(init, now))[id] == 0;
    }
  }

  /**
    An enabled job with this id that is armed is armed for the time it was added for, and not
    armed at all once it was used.
   */
  ghost predicate ArmedRight(jobs: seq<Job>, id: string, schedule: Schedule, used: bool) {
    forall k :: 0 <= k < |jobs| && jobs[k].id == id && jobs[k].enabled && jobs[k].nextRun.Some? ==>
      !used && jobs[k].nextRun == schedule.atMs
  }

  /** What holds of every one-shot job in every state that can be reached. */
  ghost predicate OneShot(s: State, id: string) {
    id in s.known && s.known[id].kind == At ==>
      && Uses(s, id) <= 1
      && (Uses(s, id) == 1 ==> s.known[id].atMs.Some? && s.known[id].atMs.value <= s.clock)
      && (s.running ==> ArmedRight(s.jobs, id, s.known[id], Uses(s, id) == 1))
  }

  lemma ArmedByCompute(tick: NextTick, schedule: Schedule, now: int, used: bool)
    requires schedule.kind == At && (used ==> schedule.atMs.Some? && schedule.atMs.value <= now)
    ensures ComputeNextRun(tick, schedule, now).Some? ==> !used && ComputeNextRun(tick, schedule, now) == schedule.atMs
  {
  }

  lemma ArmedAfterSections(
    tick: NextTick, jobs: seq<Job>, id: string, known: map<string, Schedule>, now: int, used: bool)
    requires Registered(jobs, known) && id in known && known[id].kind == At
    requires used ==> known[id].atMs.Some? && known[id].atMs.value <= now
    ensures ArmedRight(Recomputed(tick, jobs, now), id, known[id], used)
    ensures ArmedRight(jobs, id, known[id], used) ==> forall other, enabled ::
              ArmedRight(Switched(tick, jobs, other, enabled, now), id, known[id], used)
  {
    ArmedByCompute(tick, known[id], now, used);
  }

  lemma ArmedAfterRemoval(jobs: seq<Job>, other: string, id: string, known: map<string, Schedule>, used: bool)
    requires Registered(jobs, known) && id in known
    requires ArmedRight(jobs, id, known[id], used)
    ensures ArmedRight(Without(jobs, other), id, known[id], used)
  {
    WithoutIsRegistered(jobs, other, known);
    var kept := Without(jobs, other);
    forall k | 0 <= k < |kept| && kept[k].id == id && kept[k].enabled && kept[k].nextRun.Some?
      ensures !used && kept[k].nextRun == known[id].atMs
    {
      var i :| 0 <= i < |jobs| && jobs[i] == kept[k];
    }
  }

  lemma ArmedAfterFinish(
    tick: NextTick, jobs: seq<Job>, other: string, start: int, ok: bool, now: int,
    id: string, known: map<string, Schedule>, used: bool)
    requires Registered(jobs, known) && id in known && known[id].kind == At
    requires ArmedRight(jobs, id, known[id], used)
    ensures ArmedRight(Finished(tick, jobs, other, start, ok, now), id, known[id], used)
  {
    hide ComputeNextRun, Without;
    ArmedAfterRemoval(jobs, other, id, known, used);
  }

  /** Collecting a one-shot job uses it, and disarms it. */
  lemma DisarmedRight(jobs: seq<Job>, now: int, id: string, schedule: Schedule, used: bool)
    requires UniqueIds(jobs) && ArmedRight(jobs, id, schedule, used)
    ensures var due := DueIds(jobs, now);
            && ArmedRight(Disarmed(jobs, due), id, schedule, used || id in due)
            && (id in due ==> !used && schedule.atMs.Some? && schedule.atMs.value <= now)
  {
    DueCount(jobs, now, id);
    hide DueIds, UniqueIds;
    var due := DueIds(jobs, now);
    if id in due {
      var k :| 0 <= k < |jobs| && jobs[k].id == id && IsDue(jobs[k], now);
    }
  }

  lemma TickUses(s: State, l: nat, saveOk: bool, id: string)
    requires s.running && UniqueIds(s.jobs) && l < |s.loops| && s.loops[l].phase == Idle && s.loops[l].queue == []
    ensures Uses(AfterTick(s, l, saveOk), id) == Uses(s, id) + if id in DueIds(s.jobs, s.clock) then 1 else 0
  {
    var due := DueIds(s.jobs, s.clock);
    DueCount(s.jobs, s.clock, id);
    hide DueIds, LoopsUse, Disarmed, Invocations, HasDue;
    SetLoopUses(s.loops, l, s.loops[l].(queue := due), id);
    assert id in due <==> multiset(due)[id] == 1;
  }

  lemma TickKeepsOneShot(s: State, l: nat, saveOk: bool, id: string)
    requires IdsKnown(s) && OneShot(s, id) && l < |s.loops| && s.loops[l].phase == Idle && s.loops[l].queue == []
    ensures OneShot(AfterTick(s, l, saveOk), id)
  {
    assert UniqueIds(s.jobs);
    hide IdsKnown, UniqueIds, DueIds, Uses, ArmedRight, Disarmed;
    if id in s.known && s.known[id].kind == At && s.running {
      TickUses(s, l, saveOk, id);
      DisarmedRight(s.jobs, s.clock, id, s.known[id], Uses(s, id) == 1);
    }
  }

  /** A step that arms nothing and adds no use. */
  lemma FewerUses(s: State, s': State, id: string)
    requires OneShot(s, id) && s'.known == s.known && s'.clock == s.clock && Uses(s', id) <= Uses(s, id)
    requires s'.running ==> s.running && s'.jobs == s.jobs
    ensures OneShot(s', id)
  {
    hide Uses;
  }

  lemma TakeKeepsOneShot(s: State, l: nat, id: string)
    requires OneShot(s, id) && l < |s.loops| && s.loops[l].phase == Idle && s.loops[l].queue != []
    ensures OneShot(AfterTake(s, l), id)
  {
    var loop, loop' := s.loops[l], AfterTake(s, l).loops[l];
    assert loop.queue == [loop.queue[0]] + loop.queue[1..];
    assert LoopUses(loop', id) == LoopUses(loop, id);
    SetLoopUses(s.loops, l, loop', id);
    FewerUses(s, AfterTake(s, l), id);
  }

  lemma LookupKeepsOneShot(s: State, l: nat, id: string)
    requires OneShot(s, id) && l < |s.loops| && s.loops[l].phase.Taken?
    ensures OneShot(AfterLookup(s, l), id)
  {
    hide IndexOf, OneShot;
    var s' := AfterLookup(s, l);
    SetLoopUses(s.loops, l, s'.loops[l], id);
    assert s'.log != s.log ==> s'.log[..|s.log|] == s.log;
    FewerUses(s, s', id);
  }

  lemma FinishKeepsOneShot(tick: NextTick, s: State, l: nat, ok: bool, saveOk: bool, id: string)
    requires IdsKnown(s) && OneShot(s, id) && l < |s.loops| && s.loops[l].phase.Running?
    ensures OneShot(AfterFinish(tick, s, l, ok, saveOk), id)
  {
    hide Finished, IndexOf, ArmedRight;
    var p := s.loops[l].phase;
    SetLoopUses(s.loops, l, s.loops[l].(phase := Idle), id);
    if s.running && id in s.known && s.known[id].kind == At {
      ArmedAfterFinish(tick, s.jobs, p.id, p.start, ok, s.clock, id, s.known, Uses(s, id) == 1);
    }
    hide LoopsUse, Invocations;
  }

  lemma AddKeepsOneShot(tick: NextTick, s: State, id': string, schedule: Schedule, saveOk: bool, id: string)
    requires IdsKnown(s) && OneShot(s, id) && id' !in s.known
    ensures OneShot(AfterAdd(tick, s, id', schedule, saveOk), id)
  {
    if id == id' {
      UnknownIsUnused(s, id);
    }
    hide Uses;
  }

  lemma JobStepKeepsOneShot(tick: NextTick, s: State, id': string, enabled: bool, saveOk: bool, id: string)
    requires IdsKnown(s) && OneShot(s, id)
    ensures OneShot(AfterRemove(s, id', saveOk), id)
    ensures OneShot(AfterEnable(tick, s, id', enabled, saveOk), id)
  {
    hide Switched, IndexOf, Registered, LoopsUse, Invocations, ArmedRight;
    if id in s.known && s.known[id].kind == At && s.running {
      ArmedAfterRemoval(s.jobs, id', id, s.known, Uses(s, id) == 1);
      ArmedAfterSections(tick, s.jobs, id, s.known, s.clock, Uses(s, id) == 1);
    }
  }

  lemma StartKeepsOneShot(tick: NextTick, s: State, loadOk: bool, saveOk: bool, id: string)
    requires IdsKnown(s) && OneShot(s, id)
    ensures OneShot(AfterStart(tick, s, loadOk, saveOk), id)
  {
    hide Recomputed, Registered, ArmedRight;
    assert (s.loops + [Loop([], Idle, false)])[..|s.loops|] == s.loops;
    assert Uses(AfterStart(tick, s, loadOk, saveOk), id) == Uses(s, id);
    hide Uses;
    if id in s.known && s.known[id].kind == At {
      ArmedAfterSections(tick, s.disk, id, s.known, s.clock, Uses(s, id) == 1);
    }
  }

  lemma EndKeepsOneShot(s: State, l: nat, loadOk: bool, id: string)
    requires OneShot(s, id)
    ensures OneShot(AfterStop(s), id) && OneShot(AfterCrash(s, loadOk), id)
    ensures l < |s.loops| ==> OneShot(AfterExit(s, l), id)
  {
    hide OneShot;
    StoppedLoopsUse(s.loops, id);
    FewerUses(s, AfterStop(s), id);
    FewerUses(s, AfterCrash(s, loadOk), id);
    if l < |s.loops| {
      RemoveLoopUses(s.loops, l, id);
      FewerUses(s, AfterExit(s, l), id);
    }
  }

  lemma NextKeepsOneShot(tick: NextTick, s0: State, e: Timed, id: string)
    requires IdsKnown(s0) && Possible(s0, e) && OneShot(s0, id)
    ensures OneShot(Next(tick, s0, e), id)
  {
    hide AfterTick, AfterTake, AfterLookup, AfterFinish, AfterExit, AfterAdd, AfterRemove, AfterEnable, AfterStart, AfterStop, AfterCrash;
    var s := s0.(clock := e.now);
    assert IdsKnown(s) && Uses(s, id) == Uses(s0, id) && OneShot(s, id);
    hide IdsKnown, OneShot;
    match e.event
    case Tick(l, saveOk) => TickKeepsOneShot(s, l, saveOk, id);
    case Take(l) => TakeKeepsOneShot(s, l, id);
    case Lookup(l) => LookupKeepsOneShot(s, l, id);
    case Finish(l, ok, saveOk) => FinishKeepsOneShot(tick, s, l, ok, saveOk, id);
    case Exit(l) => EndKeepsOneShot(s, l, true, id);
    case Add(id', schedule, saveOk) => AddKeepsOneShot(tick, s, id', schedule, saveOk, id);
    case Remove(id', saveOk) => JobStepKeepsOneShot(tick, s, id', true, saveOk, id);
    case Enable(id', enabled, saveOk) => JobStepKeepsOneShot(tick, s, id', enabled, saveOk, id);
    case Start(loadOk, saveOk) => StartKeepsOneShot(tick, s, loadOk, saveOk, id);
    case Stop => EndKeepsOneShot(s, 0, true, id);
    case Crash(loadOk) => EndKeepsOneShot(s, 0, loadOk, id);
  }

  /** No start of a one-shot job lies before its time. */
  ghost predicate NotEarly(s: State, id: string) {
    id in s.known && s.known[id].kind == At && s.known[id].atMs.Some? ==>
      && (forall i :: 0 <= i < |s.log| && s.log[i].id == id ==> s.known[id].atMs.value <= s.log[i].start)
      && (forall l :: 0 <= l < |s.loops| ==> TakenLate(s.loops[l], id, s.known[id].atMs.value))
  }

  ghost predicate TakenLate(loop: Loop, id: string, time: int) {
    loop.phase.Taken? && loop.phase.id == id ==> time <= loop.phase.start
  }

  lemma {:induction false} QueuedIsUsed(loops: seq<Loop>, l: nat, id: string)
    requires l < |loops| && id in loops[l].queue
    ensures 1 <= LoopsUse(loops, id)
    decreases |loops|
  {
    if l < |loops| - 1 {
      QueuedIsUsed(loops[..|loops| - 1], l, id);
    }
  }

  lemma TakeKeepsNotEarly(s: State, l: nat, id: string)
    requires NotEarly(s, id) && OneShot(s, id) && l < |s.loops| && s.loops[l].queue != []
    ensures NotEarly(AfterTake(s, l), id)
  {
    hide LoopsUse, Invocations, ArmedRight;
    if id == s.loops[l].queue[0] {
      QueuedIsUsed(s.loops, l, id);
    }
  }

  lemma NextKeepsNotEarly(tick: NextTick, s0: State, e: Timed, id: string)
    requires IdsKnown(s0) && Possible(s0, e) && OneShot(s0, id) && NotEarly(s0, id)
    ensures NotEarly(Next(tick, s0, e), id)
  {
    hide Uses, ArmedRight, Registered, ComputeNextRun, Finished, Switched, Recomputed, Disarmed, Without, IndexOf;
    var s := s0.(clock := e.now);
    assert Uses(s, id) == Uses(s0, id) by { UsesIgnoreClock(s0, s, id); }
    match e.event
    case Take(l) => TakeKeepsNotEarly(s, l, id);
    case Add(id', _, _) => AddKeepsNotEarly(tick, s, e, id);
    case _ =>
  }

  lemma UsesIgnoreClock(s: State, s': State, id: string)
    requires s'.loops == s.loops && s'.log == s.log
    ensures Uses(s', id) == Uses(s, id)
  {
  }

  lemma AddKeepsNotEarly(tick: NextTick, s: State, e: Timed, id: string)
    requires IdsKnown(s) && Possible(s, e) && NotEarly(s, id) && e.event.Add?
    ensures NotEarly(Next(tick, s, e), id)
  {
    hide Registered, ComputeNextRun;
    if id == e.event.id {
      forall l | 0 <= l < |s.loops| ensures s.loops[l].phase.Taken? ==> s.loops[l].phase.id != id {
        assert LoopKnown(s.loops[l], s.known);
      }
    }
  }

  lemma {:induction false} RunKeepsOneShot(tick: NextTick, s: State, events: seq<Timed>, s': State, id: string)
    requires IsRun(tick, s, events, s') && IdsKnown(s) && OneShot(s, id) && NotEarly(s, id)
    ensures IdsKnown(s') && OneShot(s', id) && NotEarly(s', id)
    decreases |events|
  {
    hide IdsKnown, OneShot, NotEarly, Next, Possible;
    if events != [] {
      NextIdsKnown(tick, s, events[0]);
      NextKeepsOneShot(tick, s, events[0], id);
      NextKeepsNotEarly(tick, s, events[0], id);
      RunKeepsOneShot(tick, Next(tick, s, events[0]), events[1..], s', id);
    }
  }

  /**
    Over every interleaving of ticks, handlers, user operations, stops and starts, with failed
    saves and crashes, the handler of an "at" job is invoked at most once, and never before
    the job's time.
   */
  lemma AtMostOnce(tick: NextTick, events: seq<Timed>, s: State, id: string)
    requires IsRun(tick, INITIAL, events, s)
    requires id in s.known && s.known[id].kind == At
    ensures Invocations(s.log, id) <= 1
    ensures forall i :: 0 <= i < |s.log| && s.log[i].id == id ==>
              s.known[id].atMs.Some? && s.known[id].atMs.value <= s.log[i].start
  {
    RunKeepsOneShot(tick, INITIAL, events, s, id);
    forall i | 0 <= i < |s.log| && s.log[i].id == id ensures 1 <= Invocations(s.log, id) {
      InvokedIsCounted(s.log, i, id);
    }
  }

  lemma {:induction false} InvokedIsCounted(log: seq<Invocation>, i: nat, id: string)
    requires i < |log| && log[i].id == id
    ensures 1 <= Invocations(log, id)
    decreases |log|
  {
    if i < |log| - 1 {
      InvokedIsCounted(log[..|log| - 1], i, id);
    }
  }
}
