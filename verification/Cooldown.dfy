/**
  The cooldowns of model providers (pkg/providers/cooldown.go): capped exponential backoff with
  a failure window. Times and durations are nanoseconds; an unset time is `None`.
 */
module Cooldown {
  import opened Common

  datatype Reason = Auth | RateLimit | Billing | Timeout | Format | Overloaded | Unknown

  const MILLISECOND := 1_000_000
  const MINUTE := 60_000 * MILLISECOND
  const HOUR := 60 * MINUTE
  const DAY := 24 * HOUR

  // ---------- Backoff ----------

  function Pow(base: nat, exp: nat): nat {
    if exp == 0 then 1 else base * Pow(base, exp - 1)
  }

  function Min(a: int, b: int): int { if b < a then b else a }
  function Max(a: int, b: int): int { if a < b then b else a }

  /** 1, 5 and 25 minutes, then an hour. */
  function StandardCooldown(errorCount: int): int {
    var n := Max(1, errorCount);
    var exp := Min(n - 1, 3);
    Min(3_600_000, 60_000 * Pow(5, exp)) * MILLISECOND
  }

  /** 5, 10 and 20 hours, then a day. */
  function BillingCooldown(billingCount: int): int {
    var n := Max(1, billingCount);
    var exp := Min(n - 1, 10);
    Min(24 * 60 * 60 * 1000, 5 * 60 * 60 * 1000 * Pow(2, exp)) * MILLISECOND
  }

  lemma {:induction false} PowGrows(base: nat, e: nat, f: nat)
    requires 1 <= base && e <= f
    ensures 1 <= Pow(base, e) <= Pow(base, f)
    decreases f
  {
    if e == f {
      if e != 0 {
        PowGrows(base, e - 1, e - 1);
        PowStep(base, e - 1);
      }
    } else {
      PowGrows(base, e, f - 1);
      PowStep(base, f - 1);
    }
  }

  lemma PowStep(base: nat, e: nat)
    requires 1 <= base && 1 <= Pow(base, e)
    ensures Pow(base, e) <= Pow(base, e + 1)
  {
    assert Pow(base, e + 1) == base * Pow(base, e);
  }

  /** The clamp on the exponent never changes the capped value. */
  lemma ClampsDoNotMatter(n: nat)
    requires 1 <= n
    ensures StandardCooldown(n) == Min(HOUR, MINUTE * Pow(5, n - 1))
    ensures BillingCooldown(n) == Min(DAY, 5 * HOUR * Pow(2, n - 1))
  {
    StandardTable(n);
    BillingTable(n);
    assert Pow(5, 0) == 1 && Pow(5, 1) == 5 && Pow(5, 2) == 25 && Pow(5, 3) == 125;
    assert Pow(2, 0) == 1 && Pow(2, 1) == 2 && Pow(2, 2) == 4 && Pow(2, 3) == 8;
    hide StandardCooldown, BillingCooldown, Pow;
    if 4 <= n {
      PowGrows(5, 3, n - 1);
      PowGrows(2, 3, n - 1);
    }
  }

  lemma StandardTable(n: int)
    ensures StandardCooldown(n) == if n <= 1 then MINUTE else if n == 2 then 5 * MINUTE else if n == 3 then 25 * MINUTE else HOUR
  {
    assert Pow(5, 0) == 1 && Pow(5, 1) == 5 && Pow(5, 2) == 25 && Pow(5, 3) == 125;
  }

  lemma BillingTable(n: int)
    ensures BillingCooldown(n) == if n <= 1 then 5 * HOUR else if n == 2 then 10 * HOUR else if n == 3 then 20 * HOUR else DAY
  {
    assert Pow(2, 0) == 1 && Pow(2, 1) == 2 && Pow(2, 2) == 4 && Pow(2, 3) == 8;
    if 4 < n {
      PowGrows(2, 3, Min(n - 1, 10));
    }
  }

  /** More failures never mean a shorter cooldown, and both kinds are bounded. */
  lemma CooldownsGrow(m: int, n: int)
    requires m <= n
    ensures MINUTE <= StandardCooldown(m) <= StandardCooldown(n) <= HOUR
    ensures 5 * HOUR <= BillingCooldown(m) <= BillingCooldown(n) <= DAY
  {
    hide StandardCooldown, BillingCooldown;
    StandardTable(m);
    StandardTable(n);
    BillingTable(m);
    BillingTable(n);
  }

  // ---------- Entries ----------

  datatype Entry = Entry(
    errorCount: nat,
    failureCounts: map<Reason, nat>,
    cooldownEnd: Option<int>,
    disabledUntil: Option<int>,
    disabledReason: Option<Reason>,
    lastFailure: Option<int>)

  const NEW_ENTRY := Entry(0, map[], None, None, None, None)

  function CountOf(e: Entry, reason: Reason): nat {
    if reason in e.failureCounts then e.failureCounts[reason] else 0
  }

  function TotalCount(e: Entry): nat {
    CountOf(e, Auth) + CountOf(e, RateLimit) + CountOf(e, Billing) + CountOf(e, Timeout)
      + CountOf(e, Format) + CountOf(e, Overloaded) + CountOf(e, Unknown)
  }

  function Failed(e0: Entry, window: int, reason: Reason, now: int): Entry {
    var e1 :=
      if e0.lastFailure.Some? && window < now - e0.lastFailure.value
      then e0.(errorCount := 0, failureCounts := map[])
      else e0;
    var e := e1.(
      errorCount := e1.errorCount + 1,
      failureCounts := e1.failureCounts[reason := CountOf(e1, reason) + 1],
      lastFailure := Some(now));
    if reason == Billing then
      e.(disabledUntil := Some(now + BillingCooldown(CountOf(e, Billing))), disabledReason := Some(Billing))
    else e.(cooldownEnd := Some(now + StandardCooldown(e.errorCount)))
  }

  function Succeeded(e: Entry): Entry {
    NEW_ENTRY.(lastFailure := e.lastFailure)
  }

  predicate Pending(end: Option<int>, now: int) {
    end.Some? && now < end.value
  }

  predicate Available(e: Entry, now: int) {
    !Pending(e.disabledUntil, now) && !Pending(e.cooldownEnd, now)
  }

  function Remaining(e: Entry, now: int): int {
    Max(if Pending(e.disabledUntil, now) then e.disabledUntil.value - now else 0,
        if Pending(e.cooldownEnd, now) then e.cooldownEnd.value - now else 0)
  }

  type Entries = map<string, Entry>

  function EntryOf(entries: Entries, provider: string): Entry {
    if provider in entries then entries[provider] else NEW_ENTRY
  }

  function AfterFailure(entries: Entries, window: int, provider: string, reason: Reason, now: int): Entries {
    entries[provider := Failed(EntryOf(entries, provider), window, reason, now)]
  }

  function AfterSuccess(entries: Entries, provider: string): Entries {
    if provider in entries then entries[provider := Succeeded(entries[provider])] else entries
  }

  class Tracker {
    var entries: Entries
    const failureWindow: int

    constructor (failureWindow: int)
      ensures entries == map[] && this.failureWindow == failureWindow
    {
      entries := map[];
      this.failureWindow := failureWindow;
    }

    method MarkFailure(provider: string, reason: Reason, now: int)
      modifies this
      ensures entries == AfterFailure(old(entries), failureWindow, provider, reason, now)
    {
      hide BillingCooldown, StandardCooldown;
      var entry := if provider in entries then entries[provider] else NEW_ENTRY;
      if entry.lastFailure.Some? && failureWindow < now - entry.lastFailure.value {
        entry := entry.(errorCount := 0);
        entry := entry.(failureCounts := map[]);
      }
      entry := entry.(errorCount := entry.errorCount + 1);
      entry := entry.(failureCounts := entry.failureCounts[reason := CountOf(entry, reason) + 1]);
      entry := entry.(lastFailure := Some(now));
      if reason == Billing {
        var billingCount := CountOf(entry, Billing);
        entry := entry.(disabledUntil := Some(now + BillingCooldown(billingCount)));
        entry := entry.(disabledReason := Some(Billing));
      } else {
        entry := entry.(cooldownEnd := Some(now + StandardCooldown(entry.errorCount)));
      }
      entries := entries[provider := entry];
    }

    method MarkSuccess(provider: string)
      modifies this
      ensures entries == AfterSuccess(old(entries), provider)
    {
      if provider !in entries {
        return;
      }
      var entry := entries[provider];
      entry := entry.(errorCount := 0, failureCounts := map[]);
      entry := entry.(cooldownEnd := None, disabledUntil := None, disabledReason := None);
      entries := entries[provider := entry];
    }

    /** Available exactly when no time remains. */
    method IsAvailable(provider: string, now: int) returns (available: bool)
      ensures available == Available(EntryOf(entries, provider), now)
    {
      if provider !in entries {
        return true;
      }
      var entry := entries[provider];
      if entry.disabledUntil.Some? && now < entry.disabledUntil.value {
        return false;
      }
      if entry.cooldownEnd.Some? && now < entry.cooldownEnd.value {
        return false;
      }
      return true;
    }

    method CooldownRemaining(provider: string, now: int) returns (remaining: int)
      ensures remaining == Remaining(EntryOf(entries, provider), now)
      ensures remaining == 0 <==> Available(EntryOf(entries, provider), now)
      ensures forall later :: now + remaining <= later ==> Available(EntryOf(entries, provider), later)
      ensures forall earlier :: now <= earlier < now + remaining ==> !Available(EntryOf(entries, provider), earlier)
    {
      remaining := 0;
      if provider !in entries {
        return;
      }
      var entry := entries[provider];
      if entry.disabledUntil.Some? && now < entry.disabledUntil.value {
        var d := entry.disabledUntil.value - now;
        if remaining < d {
          remaining := d;
        }
      }
      if entry.cooldownEnd.Some? && now < entry.cooldownEnd.value {
        var d := entry.cooldownEnd.value - now;
        if remaining < d {
          remaining := d;
        }
      }
    }
  }

  // ---------- Runs ----------

  datatype Event = Failure(provider: string, reason: Reason, now: int) | Success(provider: string)

  function After(entries: Entries, window: int, e: Event): Entries {
    match e
    case Failure(p, reason, now) => AfterFailure(entries, window, p, reason, now)
    case Success(p) => AfterSuccess(entries, p)
  }

  function Run(window: int, events: seq<Event>): Entries {
    if events == [] then map[]
    else After(Run(window, events[..|events| - 1]), window, events[|events| - 1])
  }

  /** The clock does not go back. */
  ghost predicate InOrder(events: seq<Event>) {
    forall i, j :: 0 <= i < j < |events| && events[i].Failure? && events[j].Failure? ==> events[i].now <= events[j].now
  }

  /**
    No cooldown ends later than its length after the last failure, counted with the present
    number of failures; the error count is the sum of the counts by reason.
   */
  ghost predicate Bounded(e: Entry) {
    && e.errorCount == TotalCount(e)
    && (e.lastFailure.None? ==> e == NEW_ENTRY)
    && (e.cooldownEnd.Some? ==> e.cooldownEnd.value <= e.lastFailure.value + StandardCooldown(e.errorCount))
    && (e.disabledUntil.Some? ==> e.disabledUntil.value <= e.lastFailure.value + BillingCooldown(CountOf(e, Billing)))
  }

  /** The windows for which a reset never brings a cooldown forward: a day less the shortest billing cooldown. */
  const LEAST_WINDOW := DAY - 5 * HOUR - 1

  predicate NotBefore(a: Option<int>, b: Option<int>) {
    a.Some? ==> b.Some? && a.value <= b.value
  }

  /** The counters of an entry when a failure is recorded: reset, if the last failure is too old. */
  function Counted(e: Entry, window: int, now: int): Entry {
    if e.lastFailure.Some? && window < now - e.lastFailure.value then e.(errorCount := 0, failureCounts := map[]) else e
  }

  lemma TotalGrows(e: Entry, reason: Reason)
    ensures TotalCount(e.(failureCounts := e.failureCounts[reason := CountOf(e, reason) + 1])) == TotalCount(e) + 1
  {
    var e' := e.(failureCounts := e.failureCounts[reason := CountOf(e, reason) + 1]);
    assert forall r :: CountOf(e', r) == CountOf(e, r) + if r == reason then 1 else 0;
    hide CountOf;
  }

  /** Resetting the counters keeps the bounds, seen from the time of the new failure. */
  lemma ResetKeepsBounds(e: Entry, window: int, now: int)
    requires Bounded(e) && LEAST_WINDOW <= window
    requires e.lastFailure.Some? ==> e.lastFailure.value <= now
    ensures var c := Counted(e, window, now);
            && c.errorCount == TotalCount(c)
            && (e.cooldownEnd.Some? ==> e.cooldownEnd.value <= now + StandardCooldown(c.errorCount))
            && (e.disabledUntil.Some? ==> e.disabledUntil.value <= now + BillingCooldown(CountOf(c, Billing)))
  {
    CooldownsGrow(0, e.errorCount);
    CooldownsGrow(0, CountOf(e, Billing));
    hide StandardCooldown, BillingCooldown;
  }

  lemma FailureKeepsBounded(e: Entry, window: int, reason: Reason, now: int)
    requires Bounded(e) && LEAST_WINDOW <= window
    requires e.lastFailure.Some? ==> e.lastFailure.value <= now
    ensures Bounded(Failed(e, window, reason, now))
    ensures NotBefore(e.cooldownEnd, Failed(e, window, reason, now).cooldownEnd)
    ensures NotBefore(e.disabledUntil, Failed(e, window, reason, now).disabledUntil)
  {
    var c := Counted(e, window, now);
    ResetKeepsBounds(e, window, now);
    FailedFromCounted(e, window, reason, now);
    CooldownsGrow(c.errorCount, c.errorCount + 1);
    CooldownsGrow(CountOf(c, Billing), CountOf(c, Billing) + 1);
    hide StandardCooldown, BillingCooldown, TotalCount, Failed, Counted;
  }

  /** What recording a failure does, in terms of the counters it starts from. */
  lemma FailedFromCounted(e: Entry, window: int, reason: Reason, now: int)
    ensures var c, f := Counted(e, window, now), Failed(e, window, reason, now);
            && f.errorCount == c.errorCount + 1 && TotalCount(f) == TotalCount(c) + 1 && f.lastFailure == Some(now)
            && CountOf(f, Billing) == CountOf(c, Billing) + (if reason == Billing then 1 else 0)
            && f.cooldownEnd == (if reason == Billing then e.cooldownEnd else Some(now + StandardCooldown(f.errorCount)))
            && f.disabledUntil == (if reason == Billing then Some(now + BillingCooldown(CountOf(f, Billing))) else e.disabledUntil)
  {
    hide StandardCooldown, BillingCooldown, TotalCount;
    var c, f := Counted(e, window, now), Failed(e, window, reason, now);
    TotalGrows(c, reason);
    var counted := c.(failureCounts := c.failureCounts[reason := CountOf(c, reason) + 1]);
    assert f.failureCounts == counted.failureCounts;
    SameCountsSameTotal(f, counted);
  }

  lemma SameCountsSameTotal(e: Entry, e': Entry)
    requires e.failureCounts == e'.failureCounts
    ensures TotalCount(e) == TotalCount(e')
  {
  }

  lemma {:induction false} RunBounded(window: int, events: seq<Event>, provider: string, now: int)
    requires LEAST_WINDOW <= window && InOrder(events)
    requires forall i :: 0 <= i < |events| && events[i].Failure? ==> events[i].now <= now
    ensures Bounded(EntryOf(Run(window, events), provider))
    ensures EntryOf(Run(window, events), provider).lastFailure.Some? ==>
              EntryOf(Run(window, events), provider).lastFailure.value <= now
    decreases |events|
  {
    if events != [] {
      var init, last := events[..|events| - 1], events[|events| - 1];
      var now' := if last.Failure? then last.now else now;
      RunBounded(window, init, provider, now');
      var e := EntryOf(Run(window, init), provider);
      if last.Failure? && last.provider == provider {
        FailureKeepsBounded(e, window, last.reason, last.now);
      }
      hide StandardCooldown, BillingCooldown, Failed;
    }
  }

  /**
    On every run with a clock that does not go back, a further failure moves no end of a
    cooldown backwards, not even when it resets the counters.
   */
  lemma FailureNeverShortens(window: int, events: seq<Event>, provider: string, reason: Reason, now: int)
    requires LEAST_WINDOW <= window && InOrder(events)
    requires forall i :: 0 <= i < |events| && events[i].Failure? ==> events[i].now <= now
    ensures var e := EntryOf(Run(window, events), provider);
            var e' := EntryOf(After(Run(window, events), window, Failure(provider, reason, now)), provider);
            NotBefore(e.cooldownEnd, e'.cooldownEnd) && NotBefore(e.disabledUntil, e'.disabledUntil)
  {
    RunBounded(window, events, provider, now);
    FailureKeepsBounded(EntryOf(Run(window, events), provider), window, reason, now);
  }

  /** The caps alone. A reset of the counters cannot break them, so they hold for every failure window. */
  ghost predicate Capped(e: Entry) {
    && e.errorCount == TotalCount(e)
    && (e.cooldownEnd.Some? ==> e.lastFailure.Some? && e.cooldownEnd.value <= e.lastFailure.value + HOUR)
    && (e.disabledUntil.Some? ==> e.lastFailure.Some? && e.disabledUntil.value <= e.lastFailure.value + DAY)
  }

  lemma FailureKeepsCapped(e: Entry, window: int, reason: Reason, now: int)
    requires Capped(e) && (e.lastFailure.Some? ==> e.lastFailure.value <= now)
    ensures Capped(Failed(e, window, reason, now))
  {
    var c := Counted(e, window, now);
    FailedFromCounted(e, window, reason, now);
    CooldownsGrow(c.errorCount + 1, c.errorCount + 1);
    CooldownsGrow(CountOf(c, Billing) + 1, CountOf(c, Billing) + 1);
    assert c.errorCount == TotalCount(c);
    hide StandardCooldown, BillingCooldown, TotalCount, Failed, Counted;
  }

  lemma {:induction false} RunCapped(window: int, events: seq<Event>, provider: string, now: int)
    requires InOrder(events)
    requires forall i :: 0 <= i < |events| && events[i].Failure? ==> events[i].now <= now
    ensures var e := EntryOf(Run(window, events), provider);
            Capped(e) && (e.lastFailure.Some? ==> e.lastFailure.value <= now)
    decreases |events|
  {
    if events != [] {
      var init, last := events[..|events| - 1], events[|events| - 1];
      RunCapped(window, init, provider, if last.Failure? then last.now else now);
      var e := EntryOf(Run(window, init), provider);
      if last.Failure? && last.provider == provider {
        FailureKeepsCapped(e, window, last.reason, last.now);
      }
      hide StandardCooldown, BillingCooldown, Failed;
    }
  }

  /** Whatever the failure window: an hour and a day after the last failure every cooldown is over. */
  lemma CooldownsAreCapped(window: int, events: seq<Event>, provider: string)
    requires InOrder(events)
    ensures var e := EntryOf(Run(window, events), provider);
            && e.errorCount == TotalCount(e)
            && (e.cooldownEnd.Some? ==> e.lastFailure.Some? && e.cooldownEnd.value <= e.lastFailure.value + HOUR)
            && (e.disabledUntil.Some? ==> e.lastFailure.Some? && e.disabledUntil.value <= e.lastFailure.value + DAY)
  {
    hide Run, TotalCount;
    var now := LatestFailure(events);
    RunCapped(window, events, provider, now);
  }

  lemma {:induction false} LatestFailure(events: seq<Event>) returns (now: int)
    ensures forall i :: 0 <= i < |events| && events[i].Failure? ==> events[i].now <= now
    decreases |events|
  {
    now := 0;
    if events != [] {
      var n := |events| - 1;
      now := LatestFailure(events[..n]);
      assert forall i :: 0 <= i < n ==> events[..n][i] == events[i];
      if events[n].Failure? {
        now := Max(now, events[n].now);
      }
    }
  }

  // ---------- What an event changes ----------

  lemma RunSnoc(window: int, events: seq<Event>, e: Event)
    ensures Run(window, events + [e]) == After(Run(window, events), window, e)
  {
    assert (events + [e])[..|events|] == events;
  }

  /**
    After every run that ends with a success of a provider: it is available at every time, all
    its counts are zero, and every other provider is as before.
   */
  lemma SuccessClears(window: int, events: seq<Event>, provider: string)
    ensures var before, after := Run(window, events), Run(window, events + [Success(provider)]);
            var e := EntryOf(after, provider);
            && e.cooldownEnd == None && e.disabledUntil == None && (forall now :: Available(e, now))
            && e.errorCount == 0 && (forall reason :: CountOf(e, reason) == 0)
            && (forall other :: other != provider ==> EntryOf(after, other) == EntryOf(before, other))
  {
    RunSnoc(window, events, Success(provider));
    hide Run;
  }

  /** How long the n-th failure in a row disables a provider. */
  function LengthOf(reason: Reason, n: nat): int {
    if reason == Billing then
      if n <= 1 then 5 * HOUR else if n == 2 then 10 * HOUR else if n == 3 then 20 * HOUR else 24 * HOUR
    else
      if n <= 1 then MINUTE else if n == 2 then 5 * MINUTE else if n == 3 then 25 * MINUTE else 60 * MINUTE
  }

  /**
    What a failure does after every run: it counts as one more, or as the first if the last one
    lies further back than the window; it ends one of the two cooldowns, after the time for that
    count, and leaves the other as it was; it changes no other provider.
   */
  lemma FailureIs(window: int, events: seq<Event>, provider: string, reason: Reason, now: int)
    ensures var before, after := Run(window, events), Run(window, events + [Failure(provider, reason, now)]);
            var e, e' := EntryOf(before, provider), EntryOf(after, provider);
            var again := e.lastFailure.None? || now - e.lastFailure.value <= window;
            && e'.lastFailure == Some(now)
            && e'.errorCount == (if again then e.errorCount else 0) + 1
            && (forall r :: CountOf(e', r) == (if again then CountOf(e, r) else 0) + (if r == reason then 1 else 0))
            && (reason == Billing ==> e'.disabledUntil == Some(now + LengthOf(reason, CountOf(e', reason)))
                                      && e'.cooldownEnd == e.cooldownEnd)
            && (reason != Billing ==> e'.cooldownEnd == Some(now + LengthOf(reason, e'.errorCount))
                                      && e'.disabledUntil == e.disabledUntil)
            && (forall other :: other != provider ==> EntryOf(after, other) == EntryOf(before, other))
  {
    RunSnoc(window, events, Failure(provider, reason, now));
    var e := EntryOf(Run(window, events), provider);
    var f := Failed(e, window, reason, now);
    StandardTable(f.errorCount);
    BillingTable(CountOf(f, Billing));
    hide StandardCooldown, BillingCooldown, Run;
  }

  /** The first failure after a success ends after one minute, or five hours for billing, and not a moment earlier or later. */
  lemma FailureAfterSuccess(window: int, events: seq<Event>, provider: string, reason: Reason, now: int)
    ensures var e := EntryOf(Run(window, events + [Success(provider)] + [Failure(provider, reason, now)]), provider);
            forall later :: Available(e, later) <==> now + (if reason == Billing then 5 * HOUR else MINUTE) <= later
  {
    SuccessClears(window, events, provider);
    FailureIs(window, events + [Success(provider)], provider, reason, now);
    hide Run;
  }

  // ---------- Which windows are sound ----------

  /** A run and a failure after it that brings the end of a cooldown forward. */
  ghost predicate Shortens(window: int, events: seq<Event>, provider: string, reason: Reason, now: int) {
    && InOrder(events)
    && (forall i :: 0 <= i < |events| && events[i].Failure? ==> events[i].now <= now)
    && var e := EntryOf(Run(window, events), provider);
       var e' := EntryOf(After(Run(window, events), window, Failure(provider, reason, now)), provider);
       !(NotBefore(e.cooldownEnd, e'.cooldownEnd) && NotBefore(e.disabledUntil, e'.disabledUntil))
  }

  lemma BillingFailure(window: int, provider: string, entries: Entries, now: int)
    requires provider in entries && entries[provider].lastFailure == Some(0) && 0 <= window
    ensures var e, e' := entries[provider], EntryOf(After(entries, window, Failure(provider, Billing, now)), provider);
            && CountOf(e', Billing) == (if window < now then 0 else CountOf(e, Billing)) + 1
            && e'.lastFailure == Some(now)
            && e'.disabledUntil == Some(now + BillingCooldown(CountOf(e', Billing)))
  {
    hide BillingCooldown, StandardCooldown;
  }

  function Repeated(e: Event, n: nat): (events: seq<Event>)
    ensures |events| == n && forall i :: 0 <= i < n ==> events[i] == e
  {
    if n == 0 then [] else Repeated(e, n - 1) + [e]
  }

  lemma {:induction false} RepeatedBillingFailures(window: int, provider: string, n: nat)
    requires 0 <= window && 1 <= n
    ensures var entries := Run(window, Repeated(Failure(provider, Billing, 0), n));
            && provider in entries && entries[provider].lastFailure == Some(0)
            && CountOf(entries[provider], Billing) == n
            && entries[provider].disabledUntil == Some(BillingCooldown(n))
  {
    hide BillingCooldown, StandardCooldown;
    var f := Failure(provider, Billing, 0);
    assert Repeated(f, n)[..n - 1] == Repeated(f, n - 1);
    if n == 1 {
      assert Run(window, Repeated(f, 0)) == map[];
    } else {
      RepeatedBillingFailures(window, provider, n - 1);
      BillingFailure(window, provider, Run(window, Repeated(f, n - 1)), 0);
      hide Failed;
    }
  }

  /** With a smaller window, four billing failures at once and a fifth just past the window are such a run. */
  lemma SmallWindowShortens(window: int, provider: string)
    requires 0 <= window < LEAST_WINDOW
    ensures Shortens(window, Repeated(Failure(provider, Billing, 0), 4), provider, Billing, window + 1)
  {
    var events := Repeated(Failure(provider, Billing, 0), 4);
    RepeatedBillingFailures(window, provider, 4);
    BillingFailure(window, provider, Run(window, events), window + 1);
    BillingTable(1);
    BillingTable(4);
    hide BillingCooldown, StandardCooldown, Failed, AfterFailure, Run, Repeated;
  }

  /**
    A failure window never lets a failure shorten a cooldown if and only if it is at least a
    day less five hours. The default of a day is.
   */
  lemma WindowIsSoundIff(window: int)
    requires 0 <= window
    ensures (forall events: seq<Event>, provider, reason, now :: !Shortens(window, events, provider, reason, now))
            <==> LEAST_WINDOW <= window
    ensures LEAST_WINDOW <= DAY
  {
    if LEAST_WINDOW <= window {
      forall events: seq<Event>, provider, reason, now ensures !Shortens(window, events, provider, reason, now) {
        if InOrder(events) && forall i :: 0 <= i < |events| && events[i].Failure? ==> events[i].now <= now {
          FailureNeverShortens(window, events, provider, reason, now);
        }
      }
    } else {
      SmallWindowShortens(window, "");
    }
  }
}
