/**
  The fallback chain over providers (pkg/providers/fallback.go). What the model calls would
  return, how their errors are classified, and the clock readings are given per candidate.
 */
module Fallback {
  import opened Common
  import opened Cooldown

  datatype Candidate = Candidate(provider: string, model: string)

  /** A failed call: whether the context was canceled meanwhile, and the error's class if it has one. */
  datatype CallOutcome =
    | Answer(content: string)
    | CallError(canceled: bool, reason: Option<Reason>)

  /** What a candidate would meet: a context canceled beforehand, and the times of its check and of its mark. */
  datatype Probe = Probe(canceled: bool, checkedAt: int, outcome: CallOutcome, markedAt: int)

  datatype Attempt = Attempt(provider: string, model: string, skipped: bool, reason: Option<Reason>)

  datatype Result =
    | Served(content: string, provider: string, model: string)
    | Canceled
    | Unclassified(provider: string, model: string)
    | NotRetriable(reason: Reason)
    | Exhausted
    | NoCandidates

  predicate Retriable(reason: Reason) {
    reason != Format
  }

  // ---------- One candidate ----------

  /** Go on with the next candidate, end with an answer, or end with an error, recorded or not. */
  datatype Verdict =
    | GoOn(attempt: Attempt, entries: Entries)
    | Answered(content: string)
    | Ended(result: Result, last: Option<Attempt>)

  function Judge(entries: Entries, window: int, c: Candidate, p: Probe): Verdict {
    if p.canceled then Ended(Canceled, None)
    else if !Available(EntryOf(entries, c.provider), p.checkedAt) then
      GoOn(Attempt(c.provider, c.model, true, Some(RateLimit)), entries)
    else
      match p.outcome
      case Answer(content) => Answered(content)
      case CallError(canceled, reason) =>
        var attempt := Attempt(c.provider, c.model, false, if canceled then None else reason);
        if canceled then Ended(Canceled, Some(attempt))
        else if reason.None? then Ended(Unclassified(c.provider, c.model), Some(attempt))
        else if !Retriable(reason.value) then Ended(NotRetriable(reason.value), Some(attempt))
        else GoOn(attempt, AfterFailure(entries, window, c.provider, reason.value, p.markedAt))
  }

  // ---------- The whole chain ----------

  datatype Walk = Walk(result: Result, attempts: seq<Attempt>, entries: Entries)

  /** The chain from candidate i on, with the attempts recorded before it. */
  function WalkFrom(
    entries: Entries, window: int, candidates: seq<Candidate>, probes: seq<Probe>, i: nat, attempts: seq<Attempt>): Walk
    requires i <= |candidates| <= |probes|
    decreases |candidates| - i
  {
    if i == |candidates| then Walk(Exhausted, attempts, entries)
    else
      var c := candidates[i];
      match Judge(entries, window, c, probes[i])
      case GoOn(attempt, entries') => WalkFrom(entries', window, candidates, probes, i + 1, attempts + [attempt])
      case Answered(content) =>
        Walk(Served(content, c.provider, c.model), attempts, AfterSuccess(entries, c.provider))
      case Ended(result, attempt) =>
        Walk(result, if attempt.Some? then attempts + [attempt.value] else attempts, entries)
  }

  /** A call of a candidate's model: the time of the check before it, and the tracker's entries at that time. */
  datatype Call = Call(index: nat, at: int, entries: Entries)

  /** The verdict came from calling the model. */
  predicate WasCalled(v: Verdict) {
    v.Answered? || (v.Ended? && v.last.Some?) || (v.GoOn? && !v.attempt.skipped)
  }

  /** The calls that a chain makes from candidate i on. */
  function CallsFrom(entries: Entries, window: int, candidates: seq<Candidate>, probes: seq<Probe>, i: nat): seq<Call>
    requires i <= |candidates| <= |probes|
    decreases |candidates| - i
  {
    if i == |candidates| then []
    else
      var v := Judge(entries, window, candidates[i], probes[i]);
      (if WasCalled(v) then [Call(i, probes[i].checkedAt, entries)] else [])
      + (if v.GoOn? then CallsFrom(v.entries, window, candidates, probes, i + 1) else [])
  }

  /** One round of the calls, appended to those made before. */
  lemma CallsUnfold(
    entries: Entries, window: int, candidates: seq<Candidate>, probes: seq<Probe>, i: nat, calls: seq<Call>)
    requires i < |candidates| <= |probes|
    ensures var v := Judge(entries, window, candidates[i], probes[i]);
            var calls' := calls + (if WasCalled(v) then [Call(i, probes[i].checkedAt, entries)] else []);
            calls + CallsFrom(entries, window, candidates, probes, i)
            == if v.GoOn? then calls' + CallsFrom(v.entries, window, candidates, probes, i + 1) else calls'
  {
    hide Judge, WasCalled;
    var v := Judge(entries, window, candidates[i], probes[i]);
    var call := if WasCalled(v) then [Call(i, probes[i].checkedAt, entries)] else [];
    var rest := if v.GoOn? then CallsFrom(v.entries, window, candidates, probes, i + 1) else [];
    assert calls + (call + rest) == calls + call + rest;
    assert calls + call + [] == calls + call;
  }

  lemma NoMoreCalls(entries: Entries, window: int, candidates: seq<Candidate>, probes: seq<Probe>, calls: seq<Call>)
    requires |candidates| <= |probes|
    ensures calls + CallsFrom(entries, window, candidates, probes, |candidates|) == calls
  {
  }

  method Execute(tracker: Tracker, candidates: seq<Candidate>, probes: seq<Probe>)
    returns (result: Result, attempts: seq<Attempt>, ghost calls: seq<Call>)
    requires |candidates| <= |probes|
    modifies tracker
    ensures candidates == [] ==> result == NoCandidates && attempts == [] && tracker.entries == old(tracker.entries)
    ensures candidates != [] ==>
              Walk(result, attempts, tracker.entries)
              == WalkFrom(old(tracker.entries), tracker.failureWindow, candidates, probes, 0, [])
    ensures calls == CallsFrom(old(tracker.entries), tracker.failureWindow, candidates, probes, 0)
  {
    attempts, calls := [], [];
    if |candidates| == 0 {
      return NoCandidates, [], [];
    }
    ghost var allCalls := CallsFrom(tracker.entries, tracker.failureWindow, candidates, probes, 0);
    assert [] + allCalls == allCalls;
    ghost var all := WalkFrom(tracker.entries, tracker.failureWindow, candidates, probes, 0, []);
    for i := 0 to |candidates|
      invariant all == WalkFrom(tracker.entries, tracker.failureWindow, candidates, probes, i, attempts)
      invariant |attempts| == i
      invariant allCalls == calls + CallsFrom(tracker.entries, tracker.failureWindow, candidates, probes, i)
    {
      hide AfterFailure, AfterSuccess, Available, CallsFrom;
      var c, p := candidates[i], probes[i];
      CallsUnfold(tracker.entries, tracker.failureWindow, candidates, probes, i, calls);
      assert calls + [] == calls;
      if p.canceled {
        return Canceled, attempts, calls;
      }
      var available := tracker.IsAvailable(c.provider, p.checkedAt);
      if !available {
        attempts := attempts + [Attempt(c.provider, c.model, true, Some(RateLimit))];
        continue;
      }
      calls := calls + [Call(i, p.checkedAt, tracker.entries)];
      if p.outcome.Answer? {
        tracker.MarkSuccess(c.provider);
        return Served(p.outcome.content, c.provider, c.model), attempts, calls;
      }
      if p.outcome.canceled {
        attempts := attempts + [Attempt(c.provider, c.model, false, None)];
        return Canceled, attempts, calls;
      }
      if p.outcome.reason.None? {
        attempts := attempts + [Attempt(c.provider, c.model, false, None)];
        return Unclassified(c.provider, c.model), attempts, calls;
      }
      var reason := p.outcome.reason.value;
      if !Retriable(reason) {
        attempts := attempts + [Attempt(c.provider, c.model, false, Some(reason))];
        return NotRetriable(reason), attempts, calls;
      }
      tracker.MarkFailure(c.provider, reason, p.markedAt);
      attempts := attempts + [Attempt(c.provider, c.model, false, Some(reason))];
      if i == |candidates| - 1 {
        NoMoreCalls(tracker.entries, tracker.failureWindow, candidates, probes, calls);
        return Exhausted, attempts, calls;
      }
    }
    NoMoreCalls(tracker.entries, tracker.failureWindow, candidates, probes, calls);
    return Exhausted, attempts, calls;
  }

  // ---------- Accounting ----------

  /** The tracker's entries when candidate n is reached, if every candidate before it went on. */
  function EntriesAt(entries: Entries, window: int, candidates: seq<Candidate>, probes: seq<Probe>, n: nat): Entries
    requires n <= |candidates| <= |probes|
  {
    if n == 0 then entries
    else
      var before := EntriesAt(entries, window, candidates, probes, n - 1);
      match Judge(before, window, candidates[n - 1], probes[n - 1])
      case GoOn(_, after) => after
      case _ => before
  }

  function VerdictAt(entries: Entries, window: int, candidates: seq<Candidate>, probes: seq<Probe>, n: nat): Verdict
    requires n < |candidates| <= |probes|
  {
    Judge(EntriesAt(entries, window, candidates, probes, n), window, candidates[n], probes[n])
  }

  /**
    The chain, in terms of the first candidate `n` that does not go on. Every one before it is
    recorded, once and in order; an answer leaves exactly those attempts and resets its provider;
    an error that ends the chain adds at most its own; if there is no such candidate, all are
    recorded and the chain is exhausted.
   */
  lemma {:induction false} Accounting(
    entries: Entries, window: int, candidates: seq<Candidate>, probes: seq<Probe>, i: nat, attempts: seq<Attempt>)
    returns (n: nat)
    requires i <= |candidates| <= |probes| && |attempts| == i
    requires forall k :: 0 <= k < i ==>
               VerdictAt(entries, window, candidates, probes, k).GoOn?
               && attempts[k] == VerdictAt(entries, window, candidates, probes, k).attempt
    ensures i <= n <= |candidates|
    ensures var w := WalkFrom(EntriesAt(entries, window, candidates, probes, i), window, candidates, probes, i, attempts);
            && n <= |w.attempts| <= n + 1
            && (forall k :: 0 <= k < n ==>
                  VerdictAt(entries, window, candidates, probes, k).GoOn?
                  && w.attempts[k] == VerdictAt(entries, window, candidates, probes, k).attempt)
            && (n == |candidates| ==>
                  |w.attempts| == n && w == Walk(Exhausted, w.attempts, EntriesAt(entries, window, candidates, probes, n)))
            && (n < |candidates| ==>
                  var before := EntriesAt(entries, window, candidates, probes, n);
                  match VerdictAt(entries, window, candidates, probes, n)
                  case GoOn(_, _) => false
                  case Answered(content) =>
                    w == Walk(Served(content, candidates[n].provider, candidates[n].model), w.attempts[..n],
                              AfterSuccess(before, candidates[n].provider))
                  case Ended(result, attempt) =>
                    && w.result == result && w.entries == before
                    && w.attempts == w.attempts[..n] + (if attempt.Some? then [attempt.value] else []))
    decreases |candidates| - i
  {
    hide AfterSuccess, AfterFailure, Available;
    var before := EntriesAt(entries, window, candidates, probes, i);
    n := i;
    if i < |candidates| {
      match VerdictAt(entries, window, candidates, probes, i)
      case GoOn(attempt, _) =>
        n := Accounting(entries, window, candidates, probes, i + 1, attempts + [attempt]);
      case Answered(_) => assert attempts == attempts[..n];
      case Ended(_, attempt) =>
        assert attempts == attempts[..n];
        assert attempt.Some? ==> (attempts + [attempt.value])[..n] == attempts;
        assert attempt.None? ==> attempts == attempts[..n] + [];
    }
  }

  /** What an attempt that was not the chain's end means: a provider cooling down, or a retriable failure that was marked. */
  lemma GoingOnMeans(entries: Entries, window: int, candidates: seq<Candidate>, probes: seq<Probe>, k: nat)
    requires k < |candidates| <= |probes| && VerdictAt(entries, window, candidates, probes, k).GoOn?
    ensures var before, after := EntriesAt(entries, window, candidates, probes, k), EntriesAt(entries, window, candidates, probes, k + 1);
            var attempt, c, p := VerdictAt(entries, window, candidates, probes, k).attempt, candidates[k], probes[k];
            && attempt.provider == c.provider && attempt.model == c.model
            && (attempt.skipped <==> !Available(EntryOf(before, c.provider), p.checkedAt))
            && (attempt.skipped ==> after == before)
            && (!attempt.skipped ==>
                  && p.outcome.CallError? && !p.outcome.canceled && p.outcome.reason == attempt.reason
                  && attempt.reason.Some? && Retriable(attempt.reason.value)
                  && after == AfterFailure(before, window, c.provider, attempt.reason.value, p.markedAt))
  {
    hide Available, AfterFailure;
  }

  /**
    Over all calls that a chain makes: each is made while the candidate's provider is not
    cooling down, after all candidates in front of it went on, and no candidate is called twice.
   */
  lemma CalledOnlyWhenAvailable(entries: Entries, window: int, candidates: seq<Candidate>, probes: seq<Probe>)
    requires |candidates| <= |probes|
    ensures var calls := CallsFrom(entries, window, candidates, probes, 0);
            && (forall k :: 0 <= k < |calls| ==> IsProperCall(calls[k], entries, window, candidates, probes))
            && (forall j, k :: 0 <= j < k < |calls| ==> calls[j].index < calls[k].index)
  {
    assert EntriesAt(entries, window, candidates, probes, 0) == entries;
    CallsAreProper(entries, window, candidates, probes, 0);
  }

  ghost predicate IsProperCall(call: Call, entries: Entries, window: int, candidates: seq<Candidate>, probes: seq<Probe>)
    requires |candidates| <= |probes|
  {
    && call.index < |candidates|
    && call.entries == EntriesAt(entries, window, candidates, probes, call.index)
    && call.at == probes[call.index].checkedAt
    && Available(EntryOf(call.entries, candidates[call.index].provider), call.at)
    && forall m :: 0 <= m < call.index ==> VerdictAt(entries, window, candidates, probes, m).GoOn?
  }

  /** Proper calls of candidates from i on, none of them twice. */
  ghost predicate AreProperCalls(
    calls: seq<Call>, entries: Entries, window: int, candidates: seq<Candidate>, probes: seq<Probe>, i: nat)
    requires |candidates| <= |probes|
  {
    && (forall k :: 0 <= k < |calls| ==> i <= calls[k].index && IsProperCall(calls[k], entries, window, candidates, probes))
    && (forall j, k :: 0 <= j < k < |calls| ==> calls[j].index < calls[k].index)
  }

  lemma OneMoreCall(
    call: Call, rest: seq<Call>, entries: Entries, window: int, candidates: seq<Candidate>, probes: seq<Probe>)
    requires |candidates| <= |probes| && IsProperCall(call, entries, window, candidates, probes)
    requires AreProperCalls(rest, entries, window, candidates, probes, call.index + 1)
    ensures AreProperCalls([call] + rest, entries, window, candidates, probes, call.index)
  {
    hide IsProperCall;
  }

  lemma LaterCalls(
    calls: seq<Call>, entries: Entries, window: int, candidates: seq<Candidate>, probes: seq<Probe>, i: nat)
    requires |candidates| <= |probes| && AreProperCalls(calls, entries, window, candidates, probes, i + 1)
    ensures AreProperCalls(calls, entries, window, candidates, probes, i)
  {
    hide IsProperCall;
  }

  lemma {:induction false} CallsAreProper(
    entries: Entries, window: int, candidates: seq<Candidate>, probes: seq<Probe>, i: nat)
    requires i <= |candidates| <= |probes|
    requires forall m :: 0 <= m < i ==> VerdictAt(entries, window, candidates, probes, m).GoOn?
    ensures AreProperCalls(CallsFrom(EntriesAt(entries, window, candidates, probes, i), window, candidates, probes, i),
              entries, window, candidates, probes, i)
    decreases |candidates| - i
  {
    hide Judge, WasCalled, Available;
    if i < |candidates| {
      var before, v := EntriesAt(entries, window, candidates, probes, i), VerdictAt(entries, window, candidates, probes, i);
      CallMeansAvailable(before, window, candidates[i], probes[i]);
      var call := Call(i, probes[i].checkedAt, before);
      assert WasCalled(v) ==> IsProperCall(call, entries, window, candidates, probes);
      var rest: seq<Call> := [];
      if v.GoOn? {
        assert EntriesAt(entries, window, candidates, probes, i + 1) == v.entries;
        CallsAreProper(entries, window, candidates, probes, i + 1);
        rest := CallsFrom(v.entries, window, candidates, probes, i + 1);
      }
      assert AreProperCalls(rest, entries, window, candidates, probes, i + 1);
      assert CallsFrom(before, window, candidates, probes, i) == (if WasCalled(v) then [call] else []) + rest;
      hide *;
      if WasCalled(v) {
        OneMoreCall(call, rest, entries, window, candidates, probes);
      } else {
        assert [] + rest == rest;
        LaterCalls(rest, entries, window, candidates, probes, i);
      }
    }
  }

  lemma CallMeansAvailable(entries: Entries, window: int, c: Candidate, p: Probe)
    ensures WasCalled(Judge(entries, window, c, p)) ==> Available(EntryOf(entries, c.provider), p.checkedAt)
  {
    hide Available, AfterFailure;
  }

  /** The whole chain from its start: the theorem that `Execute` is accounted for by. */
  lemma ExecuteAccounting(entries: Entries, window: int, candidates: seq<Candidate>, probes: seq<Probe>)
    requires |candidates| <= |probes|
    ensures var w := WalkFrom(entries, window, candidates, probes, 0, []);
            && |w.attempts| <= |candidates|
            && (forall k :: 0 <= k < |w.attempts| ==>
                  w.attempts[k].provider == candidates[k].provider && w.attempts[k].model == candidates[k].model)
            && (w.result.Exhausted? ==> |w.attempts| == |candidates|)
            && (w.result.Served? ==>
                  && |w.attempts| < |candidates|
                  && w.result.provider == candidates[|w.attempts|].provider
                  && probes[|w.attempts|].outcome == Answer(w.result.content))
            && (forall k :: 0 <= k < |w.attempts| - 1 ==> VerdictAt(entries, window, candidates, probes, k).GoOn?)
            && (w.result.Served? || w.result.Exhausted? ==>
                  forall k :: 0 <= k < |w.attempts| ==> VerdictAt(entries, window, candidates, probes, k).GoOn?)
  {
    hide Judge, AfterFailure, AfterSuccess, WalkFrom, VerdictAt;
    assert EntriesAt(entries, window, candidates, probes, 0) == entries;
    hide EntriesAt;
    var n := Accounting(entries, window, candidates, probes, 0, []);
    forall k | 0 <= k < |candidates| ensures NamesCandidate(VerdictAt(entries, window, candidates, probes, k), candidates[k], probes[k]) {
      VerdictNamesCandidate(entries, window, candidates, probes, k);
    }
  }

  /** A verdict speaks of its own candidate. */
  ghost predicate NamesCandidate(v: Verdict, c: Candidate, p: Probe) {
    match v
    case GoOn(attempt, _) => attempt.provider == c.provider && attempt.model == c.model
    case Answered(content) => p.outcome == Answer(content)
    case Ended(result, last) =>
      && !result.Served? && !result.Exhausted?
      && (last.Some? ==> last.value.provider == c.provider && last.value.model == c.model)
  }

  lemma VerdictNamesCandidate(entries: Entries, window: int, candidates: seq<Candidate>, probes: seq<Probe>, k: nat)
    requires k < |candidates| <= |probes|
    ensures NamesCandidate(VerdictAt(entries, window, candidates, probes, k), candidates[k], probes[k])
  {
    hide Available, AfterFailure;
  }

  // ---------- The chain, in terms of what its candidates meet ----------

  /** The call was made, and failed in a way that another candidate may not. */
  predicate FailedRetriably(entries: Entries, c: Candidate, p: Probe) {
    && !p.canceled && Available(EntryOf(entries, c.provider), p.checkedAt)
    && p.outcome.CallError? && !p.outcome.canceled && p.outcome.reason.Some? && p.outcome.reason.value != Format
  }

  /** The candidate's provider is cooling down, or its call failed retriably. */
  predicate PassedOver(entries: Entries, c: Candidate, p: Probe) {
    !p.canceled && (!Available(EntryOf(entries, c.provider), p.checkedAt) || FailedRetriably(entries, c, p))
  }

  /** The tracker's entries when the chain reaches candidate n: every retriable failure before it is marked, nothing else. */
  function EntriesReached(entries: Entries, window: int, candidates: seq<Candidate>, probes: seq<Probe>, n: nat): Entries
    requires n <= |candidates| <= |probes|
  {
    if n == 0 then entries
    else
      var before, c, p := EntriesReached(entries, window, candidates, probes, n - 1), candidates[n - 1], probes[n - 1];
      if FailedRetriably(before, c, p) then AfterFailure(before, window, c.provider, p.outcome.reason.value, p.markedAt)
      else before
  }

  /** What is recorded for a candidate that was passed over. */
  function AttemptFor(entries: Entries, c: Candidate, p: Probe): Attempt {
    if FailedRetriably(entries, c, p) then Attempt(c.provider, c.model, false, p.outcome.reason)
    else Attempt(c.provider, c.model, true, Some(RateLimit))
  }

  /** One candidate: it is passed over exactly when the chain goes on, and what then changes. */
  lemma PassedOverIff(entries: Entries, window: int, c: Candidate, p: Probe)
    ensures var v := Judge(entries, window, c, p);
            && (v.GoOn? <==> PassedOver(entries, c, p))
            && (v.GoOn? ==> v.attempt == AttemptFor(entries, c, p))
            && (v.GoOn? ==> v.entries == if FailedRetriably(entries, c, p)
                              then AfterFailure(entries, window, c.provider, p.outcome.reason.value, p.markedAt) else entries)
  {
    hide Available, AfterFailure;
  }

  /** The result, the last attempt and the tracker, when candidate c is the first that is not passed over. */
  ghost predicate EndsWith(w: Walk, entries: Entries, c: Candidate, p: Probe, earlier: seq<Attempt>) {
    if p.canceled then w == Walk(Canceled, earlier, entries)
    else
      match p.outcome
      case Answer(content) =>
        w == Walk(Served(content, c.provider, c.model), earlier, AfterSuccess(entries, c.provider))
      case CallError(true, _) =>
        w == Walk(Canceled, earlier + [Attempt(c.provider, c.model, false, None)], entries)
      case CallError(false, None) =>
        w == Walk(Unclassified(c.provider, c.model), earlier + [Attempt(c.provider, c.model, false, None)], entries)
      case CallError(false, Some(reason)) =>
        && reason == Format
        && w == Walk(NotRetriable(Format), earlier + [Attempt(c.provider, c.model, false, Some(Format))], entries)
  }

  lemma NotPassedOverEnds(
    entries: Entries, window: int, candidates: seq<Candidate>, probes: seq<Probe>, i: nat, attempts: seq<Attempt>)
    requires i < |candidates| <= |probes| && !PassedOver(entries, candidates[i], probes[i])
    ensures EndsWith(WalkFrom(entries, window, candidates, probes, i, attempts), entries, candidates[i], probes[i], attempts)
  {
    hide Available, AfterFailure, AfterSuccess;
  }

  lemma PassedOverGoesOn(
    entries: Entries, window: int, candidates: seq<Candidate>, probes: seq<Probe>, i: nat, attempts: seq<Attempt>)
    requires i < |candidates| <= |probes| && PassedOver(entries, candidates[i], probes[i])
    ensures var c, p := candidates[i], probes[i];
            var entries' := if FailedRetriably(entries, c, p)
                            then AfterFailure(entries, window, c.provider, p.outcome.reason.value, p.markedAt) else entries;
            WalkFrom(entries, window, candidates, probes, i, attempts)
            == WalkFrom(entries', window, candidates, probes, i + 1, attempts + [AttemptFor(entries, c, p)])
  {
    hide Available, AfterFailure, AfterSuccess, Judge, PassedOver, FailedRetriably, AttemptFor;
    PassedOverIff(entries, window, candidates[i], probes[i]);
  }

  /** Candidate k is reached and passed over. */
  predicate PassedAt(entries: Entries, window: int, candidates: seq<Candidate>, probes: seq<Probe>, k: nat)
    requires k < |candidates| <= |probes|
  {
    PassedOver(EntriesReached(entries, window, candidates, probes, k), candidates[k], probes[k])
  }

  lemma {:induction false} WalksOn(
    entries: Entries, window: int, candidates: seq<Candidate>, probes: seq<Probe>, i: nat, attempts: seq<Attempt>)
    returns (n: nat, earlier: seq<Attempt>)
    requires i <= |candidates| <= |probes| && |attempts| == i
    ensures i <= n <= |candidates| && |earlier| == n && earlier[..i] == attempts
    ensures forall k :: i <= k < n ==>
              PassedAt(entries, window, candidates, probes, k)
              && earlier[k] == AttemptFor(EntriesReached(entries, window, candidates, probes, k), candidates[k], probes[k])
    ensures var w := WalkFrom(EntriesReached(entries, window, candidates, probes, i), window, candidates, probes, i, attempts);
            var reached := EntriesReached(entries, window, candidates, probes, n);
            && (n == |candidates| ==> w == Walk(Exhausted, earlier, reached))
            && (n < |candidates| ==> !PassedAt(entries, window, candidates, probes, n)
                                     && EndsWith(w, reached, candidates[n], probes[n], earlier))
    decreases |candidates| - i
  {
    hide Available, AfterFailure, AfterSuccess, Judge, FailedRetriably, AttemptFor, PassedOver, EndsWith;
    n, earlier := i, attempts;
    assert attempts[..i] == attempts;
    if i < |candidates| {
      var reached := EntriesReached(entries, window, candidates, probes, i);
      if PassedAt(entries, window, candidates, probes, i) {
        PassedOverGoesOn(reached, window, candidates, probes, i, attempts);
        var attempt := AttemptFor(reached, candidates[i], probes[i]);
        n, earlier := WalksOn(entries, window, candidates, probes, i + 1, attempts + [attempt]);
        assert earlier[..i] == earlier[..i + 1][..i];
        assert earlier[i] == earlier[..i + 1][i];
      } else {
        NotPassedOverEnds(reached, window, candidates, probes, i, attempts);
      }
    }
  }

  /**
    The whole chain. Every candidate before the n-th is passed over, and recorded; the chain
    ends at the n-th, the first that is not, with the answer or the error that it met; and it is
    exhausted exactly if there is no such candidate.
   */
  lemma ChainIs(entries: Entries, window: int, candidates: seq<Candidate>, probes: seq<Probe>)
    returns (n: nat, earlier: seq<Attempt>)
    requires |candidates| <= |probes|
    ensures n <= |candidates| && |earlier| == n
    ensures forall k :: 0 <= k < n ==>
              PassedAt(entries, window, candidates, probes, k)
              && earlier[k] == AttemptFor(EntriesReached(entries, window, candidates, probes, k), candidates[k], probes[k])
    ensures var w := WalkFrom(entries, window, candidates, probes, 0, []);
            var reached := EntriesReached(entries, window, candidates, probes, n);
            && (n == |candidates| ==> w == Walk(Exhausted, earlier, reached))
            && (n < |candidates| ==> !PassedAt(entries, window, candidates, probes, n)
                                     && EndsWith(w, reached, candidates[n], probes[n], earlier))
  {
    hide WalkFrom, PassedAt, EndsWith, AttemptFor;
    n, earlier := WalksOn(entries, window, candidates, probes, 0, []);
  }

  /** Served by candidate n exactly if it is the first that is not passed over, not canceled, available, and answers. */
  lemma ServedIff(entries: Entries, window: int, candidates: seq<Candidate>, probes: seq<Probe>)
    requires |candidates| <= |probes|
    ensures var result := WalkFrom(entries, window, candidates, probes, 0, []).result;
            && (result.Served? <==>
                  exists n :: 0 <= n < |candidates| && AnswersFirst(entries, window, candidates, probes, n))
            && (forall n :: 0 <= n < |candidates| && AnswersFirst(entries, window, candidates, probes, n) ==>
                  result == Served(probes[n].outcome.content, candidates[n].provider, candidates[n].model))
            && (result.NotRetriable? ==> result.reason == Format)
  {
    hide WalkFrom, Available, AfterSuccess, AttemptFor, EntriesReached;
    var n, earlier := ChainIs(entries, window, candidates, probes);
    hide FailedRetriably;
    if n < |candidates| {
      assert !PassedAt(entries, window, candidates, probes, n);
      assert probes[n].outcome.Answer? && !probes[n].canceled ==> AnswersFirst(entries, window, candidates, probes, n);
    }
    forall m | 0 <= m < |candidates| && AnswersFirst(entries, window, candidates, probes, m) ensures m == n {
      NotPassedWhenAnswered(entries, window, candidates, probes, m);
    }
    hide PassedAt, PassedOver;
  }

  predicate AnswersFirst(entries: Entries, window: int, candidates: seq<Candidate>, probes: seq<Probe>, n: nat)
    requires n < |candidates| <= |probes|
  {
    && (forall k :: 0 <= k < n ==> PassedAt(entries, window, candidates, probes, k))
    && !probes[n].canceled && probes[n].outcome.Answer?
    && Available(EntryOf(EntriesReached(entries, window, candidates, probes, n), candidates[n].provider), probes[n].checkedAt)
  }

  lemma NotPassedWhenAnswered(entries: Entries, window: int, candidates: seq<Candidate>, probes: seq<Probe>, n: nat)
    requires n < |candidates| <= |probes| && AnswersFirst(entries, window, candidates, probes, n)
    ensures !PassedAt(entries, window, candidates, probes, n)
  {
  }

  // ---------- The chain and the cooldowns ----------

  lemma {:induction false} OtherProvidersUntouched(
    entries: Entries, window: int, candidates: seq<Candidate>, probes: seq<Probe>, provider: string, k: nat, m: nat)
    requires k <= m <= |candidates| <= |probes|
    requires forall j :: k <= j < m ==> candidates[j].provider != provider
    ensures EntryOf(EntriesAt(entries, window, candidates, probes, m), provider)
         == EntryOf(EntriesAt(entries, window, candidates, probes, k), provider)
    decreases m - k
  {
    hide Available, Failed;
    if k < m {
      OtherProvidersUntouched(entries, window, candidates, probes, provider, k, m - 1);
    }
  }

  /** A provider that just failed is skipped when its next candidate comes up within a minute. */
  lemma FailedProviderIsSkipped(
    entries: Entries, window: int, candidates: seq<Candidate>, probes: seq<Probe>, k: nat, m: nat)
    requires k < m < |candidates| <= |probes| && candidates[m].provider == candidates[k].provider
    requires forall j :: k < j < m ==> candidates[j].provider != candidates[k].provider
    requires VerdictAt(entries, window, candidates, probes, k).GoOn?
    requires !VerdictAt(entries, window, candidates, probes, k).attempt.skipped
    requires !probes[m].canceled && probes[m].checkedAt < probes[k].markedAt + MINUTE
    ensures var v := VerdictAt(entries, window, candidates, probes, m); v.GoOn? && v.attempt.skipped
  {
    var provider := candidates[k].provider;
    GoingOnMeans(entries, window, candidates, probes, k);
    OtherProvidersUntouched(entries, window, candidates, probes, provider, k + 1, m);
    var before := EntryOf(EntriesAt(entries, window, candidates, probes, k), provider);
    var reason := VerdictAt(entries, window, candidates, probes, k).attempt.reason.value;
    FailedIsUnavailable(before, window, reason, probes[k].markedAt, probes[m].checkedAt);
    hide Failed, Available;
  }

  lemma FailedIsUnavailable(e: Entry, window: int, reason: Reason, now: int, later: int)
    requires later < now + MINUTE
    ensures !Available(Failed(e, window, reason, now), later)
  {
    var c := Counted(e, window, now);
    FailedFromCounted(e, window, reason, now);
    CooldownsGrow(0, c.errorCount + 1);
    CooldownsGrow(0, CountOf(c, Billing) + 1);
    hide StandardCooldown, BillingCooldown, Failed, TotalCount, Counted;
  }
}
