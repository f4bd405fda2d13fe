/**
  The cache of search results (pkg/skills/search_cache.go): bounded, least recently used first
  out, with hits for queries that are similar to a cached one. Normalizing a query is a
  parameter, as is the time of each operation.
 */
module SearchCache {
  import opened Common
  import opened Trigrams

  datatype Query = Query(bytes: seq<byte>)
  type Results = seq<string>

  datatype Entry = Entry(query: Query, trigrams: seq<nat>, results: Results, createdAt: int)

  const SIMILARITY_THRESHOLD := 0.7

  predicate Fresh(entry: Entry, ttl: int, now: int) {
    now - entry.createdAt < ttl
  }

  ghost predicate EntryFor(entry: Entry, key: Query) {
    entry.query == key && StrictlyAscending(entry.trigrams) && Elements(entry.trigrams) == TrigramSet(key.bytes)
  }

  ghost function Similarity(a: Query, b: Query): real {
    Jaccard(TrigramSet(a.bytes), TrigramSet(b.bytes))
  }

  // ---------- The order of use ----------

  /** The keys are listed in the order of their last uses, each once. */
  ghost predicate Recency(order: seq<Query>, lastUse: map<Query, nat>, uses: nat) {
    && (forall i :: 0 <= i < |order| ==> order[i] in lastUse && lastUse[order[i]] < uses)
    && (forall i, j :: 0 <= i < j < |order| ==> lastUse[order[i]] < lastUse[order[j]])
  }

  /** The list has exactly the keys of the entries. */
  ghost predicate Lists(order: seq<Query>, entries: map<Query, Entry>) {
    forall k :: k in order <==> k in entries
  }

  /** Nothing was added or changed, entries may be gone. */
  ghost predicate PartOf(entries: map<Query, Entry>, before: map<Query, Entry>) {
    forall k :: k in entries ==> k in before && entries[k] == before[k]
  }

  ghost predicate AllEntriesRight(entries: map<Query, Entry>) {
    forall k :: k in entries ==> EntryFor(entries[k], k)
  }

  /** The list without the first occurrence of a key. */
  function Removed(order: seq<Query>, key: Query): seq<Query> {
    if order == [] then []
    else if order[0] == key then order[1..]
    else [order[0]] + Removed(order[1..], key)
  }

  /** What is removed at an index: nothing yet, the key, or nothing at all. */
  lemma RemovedFrom(order: seq<Query>, key: Query, i: nat)
    requires i <= |order|
    ensures i < |order| && order[i] != key ==> order[..i] + Removed(order[i..], key) == order[..i + 1] + Removed(order[i + 1..], key)
    ensures i < |order| && order[i] == key ==> Removed(order[i..], key) == order[i + 1..]
    ensures i == |order| ==> order[..i] + Removed(order[i..], key) == order
  {
    if i < |order| {
      assert order[i..][1..] == order[i + 1..] && order[..i + 1] == order[..i] + [order[i]];
      assert order[..i] + ([order[i]] + Removed(order[i + 1..], key)) == order[..i] + [order[i]] + Removed(order[i + 1..], key);
    }
  }

  /** The keys whose entries have not expired. */
  function Live(order: seq<Query>, entries: map<Query, Entry>, ttl: int, now: int): seq<Query> {
    if order == [] then []
    else
      var n := |order| - 1;
      Live(order[..n], entries, ttl, now)
        + if order[n] in entries && Fresh(entries[order[n]], ttl, now) then [order[n]] else []
  }

  lemma RestIsNewer(order: seq<Query>, lastUse: map<Query, nat>, uses: nat)
    requires Recency(order, lastUse, uses) && order != []
    ensures Recency(order[1..], lastUse, uses) && order[0] !in order[1..]
    ensures forall k :: k in order <==> k == order[0] || k in order[1..]
    ensures order[0] in lastUse && lastUse[order[0]] < uses
    ensures forall k :: k in order[1..] ==> k in lastUse && lastUse[order[0]] < lastUse[k]
  {
    assert forall i :: 0 <= i < |order| - 1 ==> order[1..][i] == order[i + 1];
  }

  lemma OlderInFront(first: Query, order: seq<Query>, lastUse: map<Query, nat>, uses: nat)
    requires Recency(order, lastUse, uses) && first in lastUse && lastUse[first] < uses
    requires forall k :: k in order ==> k in lastUse && lastUse[first] < lastUse[k]
    ensures Recency([first] + order, lastUse, uses)
  {
    assert forall i :: 0 <= i < |order| ==> order[i] in order;
  }

  lemma {:induction false} RemovedKeepsRecency(order: seq<Query>, key: Query, lastUse: map<Query, nat>, uses: nat)
    requires Recency(order, lastUse, uses)
    ensures Recency(Removed(order, key), lastUse, uses)
    ensures forall k :: k in Removed(order, key) <==> k in order && k != key
  {
    hide Recency;
    if order != [] {
      RestIsNewer(order, lastUse, uses);
      RemovedKeepsRecency(order[1..], key, lastUse, uses);
      OlderInFront(order[0], Removed(order[1..], key), lastUse, uses);
    }
  }

  lemma TouchKeepsRecency(order: seq<Query>, key: Query, lastUse: map<Query, nat>, uses: nat)
    requires Recency(order, lastUse, uses) && key !in order
    ensures Recency(order + [key], lastUse[key := uses], uses + 1)
  {
  }

  lemma {:induction false} LiveKeepsRecency(
    order: seq<Query>, entries: map<Query, Entry>, ttl: int, now: int, lastUse: map<Query, nat>, uses: nat)
    requires Recency(order, lastUse, uses)
    ensures Recency(Live(order, entries, ttl, now), lastUse, uses)
    ensures forall k :: k in Live(order, entries, ttl, now) <==> k in order && k in entries && Fresh(entries[k], ttl, now)
    decreases |order|
  {
    if order != [] {
      var init, last := order[..|order| - 1], order[|order| - 1];
      LiveKeepsRecency(init, entries, ttl, now, lastUse, uses);
      var live := Live(init, entries, ttl, now);
      assert forall k :: k in order <==> k in init || k == last;
      forall i | 0 <= i < |live| ensures lastUse[live[i]] < lastUse[last] {
        assert live[i] in init;
      }
    }
  }

  lemma {:induction false} ListSize(order: seq<Query>, keys: set<Query>, lastUse: map<Query, nat>, uses: nat)
    requires Recency(order, lastUse, uses) && forall k :: k in order <==> k in keys
    ensures |order| == |keys|
    decreases |order|
  {
    if order == [] {
      assert keys == {};
    } else {
      var init, last := order[..|order| - 1], order[|order| - 1];
      assert forall k :: k in init ==> lastUse[k] < lastUse[last];
      assert forall k :: k in order <==> k in init || k == last;
      ListSize(init, keys - {last}, lastUse, uses);
    }
  }

  class SearchCache {
    const normalize: Query -> Query
    const maxEntries: int
    const ttl: int
    var entries: map<Query, Entry>
    var order: seq<Query>
    ghost var lastUse: map<Query, nat>
    ghost var uses: nat

    ghost predicate Valid()
      reads this
    {
      && 0 < maxEntries && 0 < ttl
      && Recency(order, lastUse, uses)
      && Lists(order, entries)
      && |entries| <= maxEntries
      && AllEntriesRight(entries)
    }

    /** The defaults are 50 entries and 5 minutes, in nanoseconds. */
    constructor (normalize: Query -> Query, maxEntries: int, ttl: int)
      ensures Valid() && entries == map[] && order == []
      ensures this.normalize == normalize
      ensures this.maxEntries == if maxEntries <= 0 then 50 else maxEntries
      ensures this.ttl == if ttl <= 0 then 300_000_000_000 else ttl
    {
      this.normalize := normalize;
      this.maxEntries := if maxEntries <= 0 then 50 else maxEntries;
      this.ttl := if ttl <= 0 then 300_000_000_000 else ttl;
      entries, order, lastUse, uses := map[], [], map[], 0;
    }

    /** The keys that a `Put` of a key leaves, the key itself aside. */
    ghost function Remaining(key: Query, now: int): seq<Query>
      reads this
    {
      var live := Live(order, entries, ttl, now);
      if key in live then Removed(live, key)
      else if maxEntries <= |live| && live != [] then live[1..]
      else live
    }

    method MoveToEnd(key: Query)
      modifies this`order
      ensures order == Removed(old(order), key) + [key]
    {
      hide Removed;
      var i := 0;
      assert order[0..] == order && order[..0] + Removed(order, key) == Removed(order, key);
      while i < |order| && order[i] != key
        invariant 0 <= i <= |order| && order == old(order)
        invariant Removed(order, key) == order[..i] + Removed(order[i..], key)
      {
        RemovedFrom(order, key, i);
        i := i + 1;
      }
      RemovedFrom(order, key, i);
      if i < |order| {
        order := order[..i] + order[i + 1..];
      }
      order := order + [key];
    }

    method EvictExpired(now: int)
      requires Lists(order, entries)
      modifies this`order, this`entries
      ensures order == Live(old(order), old(entries), ttl, now)
      ensures entries == map k | k in old(entries) && Fresh(old(entries)[k], ttl, now) :: old(entries)[k]
    {
      var newOrder: seq<Query> := [];
      ghost var was := entries;
      for i := 0 to |order|
        invariant order == old(order)
        invariant newOrder == Live(order[..i], was, ttl, now)
        invariant forall k :: k in entries ==> k in was && entries[k] == was[k]
        invariant forall k :: k in was && k !in entries ==> !Fresh(was[k], ttl, now)
        invariant forall k :: k in order[..i] && k in entries ==> Fresh(was[k], ttl, now)
      {
        var key := order[i];
        assert order[..i + 1] == order[..i] + [key];
        if key !in entries || ttl <= now - entries[key].createdAt {
          entries := entries - {key};
          continue;
        }
        newOrder := newOrder + [key];
      }
      assert order[..|order|] == order;
      order := newOrder;
    }

    /** Makes room for one more entry. */
    method EvictOldest()
      requires 0 < maxEntries && Recency(order, lastUse, uses) && |entries| <= maxEntries && Lists(order, entries)
      modifies this`order, this`entries
      ensures order == if maxEntries <= |old(order)| && old(order) != [] then old(order)[1..] else old(order)
      ensures |entries| < maxEntries && Recency(order, lastUse, uses)
      ensures Lists(order, entries) && PartOf(entries, old(entries))
    {
      hide Recency, Lists;
      KeysSize(order, entries, lastUse, uses);
      while maxEntries <= |entries| && 0 < |order|
        invariant Recency(order, lastUse, uses) && |entries| == |order|
        invariant Lists(order, entries) && PartOf(entries, old(entries))
        invariant order == old(order) || (maxEntries <= |old(order)| && old(order) != [] && order == old(order)[1..])
        invariant |order| <= maxEntries && (order != old(order) ==> |order| < maxEntries)
        decreases |order|
      {
        OldestDropped(order, entries, lastUse, uses);
        var oldest := order[0];
        order := order[1..];
        entries := entries - {oldest};
      }
    }

    /** Inserts a key that is not there, in the room that the oldest one leaves if there is none. */
    method InsertNew(key: Query, entry: Entry) returns (ghost left: map<Query, Entry>)
      requires 0 < maxEntries && Recency(order, lastUse, uses) && |entries| <= maxEntries && Lists(order, entries)
      requires key !in entries
      modifies this`order, this`entries
      ensures order == (if maxEntries <= |old(order)| && old(order) != [] then old(order)[1..] else old(order)) + [key]
      ensures entries == left[key := entry] && |left| < maxEntries
      ensures order[..|order| - 1] == if maxEntries <= |old(order)| && old(order) != [] then old(order)[1..] else old(order)
      ensures Lists(order[..|order| - 1], left - {key}) && PartOf(left, old(entries))
      ensures Recency(order[..|order| - 1], lastUse, uses)
    {
      hide Recency, Lists;
      EvictOldest();
      left := entries;
      WithoutAbsent(entries, key);
      assert (order + [key])[..|order|] == order;
      entries := entries[key := entry];
      order := order + [key];
    }

    /** Marks a key as used just now. */
    ghost method Touch(key: Query)
      modifies this`lastUse, this`uses
      ensures lastUse == old(lastUse)[key := old(uses)] && uses == old(uses) + 1
    {
      lastUse := lastUse[key := uses];
      uses := uses + 1;
    }

    /**
      Stores results. Expired entries go first; then, if there still is no room, exactly the
      least recently used of the others.
     */
    method Put(query: Query, results: Results, now: int)
      requires Valid()
      modifies this
      ensures Valid()
      ensures normalize(query).bytes == [] ==> entries == old(entries) && order == old(order)
      ensures normalize(query).bytes != [] ==> order == old(Remaining(normalize(query), now)) + [normalize(query)]
      ensures normalize(query).bytes != [] ==> Stored(normalize(query), results, now)
      ensures PartOf(entries - {normalize(query)}, old(entries))
    {
      hide Recency, Lists, AllEntriesRight, EntryFor, Removed, Live, PartOf, Fresh;
      var key := normalize(query);
      if key.bytes == [] {
        PartWithout(entries, key);
        return;
      }
      RemainingIsSound(order, entries, maxEntries, ttl, now, key, lastUse, uses);
      EvictExpired(now);
      var entry := NewEntry(key, results, now);
      RightPart(entries, old(entries));
      ghost var unexpired := entries;
      StoreEntry(key, entry);
      PartOfPart(entries - {key}, unexpired, old(entries));
      Touch(key);
    }

    /** The part of a `Put` that follows the eviction of expired entries. */
    method StoreEntry(key: Query, entry: Entry)
      requires 0 < maxEntries && |entries| <= maxEntries
      requires Recency(order, lastUse, uses) && Lists(order, entries) && AllEntriesRight(entries)
      requires Recency(Removed(order, key), lastUse, uses) && Lists(Removed(order, key), entries - {key})
      requires EntryFor(entry, key)
      modifies this`order, this`entries
      ensures |entries| <= maxEntries && key in entries && entries[key] == entry
      ensures Recency(order, lastUse[key := uses], uses + 1) && Lists(order, entries) && AllEntriesRight(entries)
      ensures PartOf(entries - {key}, old(entries))
      ensures order == old(
        if key in order then Removed(order, key)
        else if maxEntries <= |order| && order != [] then order[1..]
        else order) + [key]
    {
      hide Recency, Lists, AllEntriesRight, EntryFor, Removed, PartOf;
      InLive(order, entries, key);
      ghost var left, remaining;
      if key in entries {
        left, remaining := entries, Removed(order, key);
        PartOfItself(left);
        entries := entries[key := entry];
        MoveToEnd(key);
      } else {
        left := InsertNew(key, entry);
        remaining := order[..|order| - 1];
      }
      KeyListed(remaining, left, key, entry);
      KeyStored(left, old(entries), key, entry);
      TouchKeepsRecency(remaining, key, lastUse, uses);
    }

    /** The unexpired entry that is most similar to a query, if any is similar at all. */
    method FindSimilar(query: Query, now: int) returns (best: Option<Query>, bestSim: real)
      requires AllEntriesRight(entries)
      ensures best.Some? ==> Unexpired(best.value, now) && bestSim == Similarity(query, best.value) && 0.0 < bestSim
      ensures best.None? ==> bestSim == 0.0
      ensures forall k :: Unexpired(k, now) ==> Similarity(query, k) <= bestSim
    {
      hide AllEntriesRight, Similarity, Unexpired;
      var trigrams := BuildTrigrams(query.bytes);
      best, bestSim := None, 0.0;
      OnlyEntries(now);
      var todo := entries.Keys;
      while todo != {}
        invariant forall k :: k in todo ==> k in entries
        invariant best.Some? ==> Unexpired(best.value, now) && bestSim == Similarity(query, best.value) && 0.0 < bestSim
        invariant best.None? ==> bestSim == 0.0
        invariant forall k :: Unexpired(k, now) && k !in todo ==> Similarity(query, k) <= bestSim
        decreases todo
      {
        var k :| k in todo;
        todo := todo - {k};
        IsUnexpired(k, now);
        if ttl <= now - entries[k].createdAt {
          continue;
        }
        SimilarityIs(trigrams, query, entries, k);
        var sim := JaccardSimilarity(trigrams, entries[k].trigrams);
        if bestSim < sim {
          best, bestSim := Some(k), sim;
        }
      }
    }

    ghost predicate Unexpired(key: Query, now: int)
      reads this
    {
      key in entries && Fresh(entries[key], ttl, now)
    }

    lemma IsUnexpired(key: Query, now: int)
      ensures Unexpired(key, now) <==> key in entries && now - entries[key].createdAt < ttl
    {
    }

    lemma OnlyEntries(now: int)
      ensures forall k :: Unexpired(k, now) ==> k in entries
    {
    }

    /**
      Looks a query up. A hit is the query's own unexpired entry or else an unexpired entry
      whose similarity is at least the threshold and that no other exceeds; there is one
      whenever such an entry exists. Nothing but the order of use changes.
     */
    method Get(query: Query, now: int) returns (hit: Option<Results>, ghost key: Query)
      requires Valid()
      modifies this`order, this`lastUse, this`uses
      ensures Valid()
      ensures hit.None? ==> order == old(order)
      ensures hit.Some? ==> Unexpired(key, now) && hit.value == entries[key].results
      ensures hit.Some? ==> order == Removed(old(order), key) + [key]
      ensures normalize(query).bytes == [] ==> hit.None?
      ensures normalize(query).bytes != [] && Unexpired(normalize(query), now) ==> hit.Some? && key == normalize(query)
      ensures normalize(query).bytes != [] && !Unexpired(normalize(query), now) ==>
                (hit.Some? <==> exists k :: Unexpired(k, now) && SIMILARITY_THRESHOLD <= Similarity(normalize(query), k))
      ensures hit.Some? && key != normalize(query) ==>
                && SIMILARITY_THRESHOLD <= Similarity(normalize(query), key)
                && forall k :: Unexpired(k, now) ==> Similarity(normalize(query), k) <= Similarity(normalize(query), key)
    {
      hide Recency, Lists, AllEntriesRight, Removed, Similarity;
      var normalized := normalize(query);
      hit, key := None, normalized;
      if normalized.bytes == [] {
        return;
      }
      if normalized in entries {
        if now - entries[normalized].createdAt < ttl {
          UseKeepsValid(order, entries, normalized, lastUse, uses);
          MoveToEnd(normalized);
          Touch(normalized);
          return Some(entries[normalized].results), normalized;
        }
      }
      var best, bestSim := FindSimilar(normalized, now);
      if SIMILARITY_THRESHOLD <= bestSim && best.Some? {
        UseKeepsValid(order, entries, best.value, lastUse, uses);
        MoveToEnd(best.value);
        Touch(best.value);
        return Some(entries[best.value].results), best.value;
      }
    }

    /** Results just stored are what the same query finds, as long as they have not expired. */
    method PutThenGet(query: Query, results: Results, now: int, later: int) returns (hit: Option<Results>)
      requires Valid() && normalize(query).bytes != [] && later - now < ttl
      modifies this
      ensures Valid() && hit == Some(results)
    {
      Put(query, results, now);
      ghost var key;
      hit, key := Get(query, later);
    }

    /** Of the unexpired entries, a `Put` evicts one only at capacity and for a new key, and then the least recently used. */
    lemma EvictsLeastRecentlyUsed(key: Query, now: int)
      requires Valid()
      ensures forall k :: Unexpired(k, now) && k != key && k !in Remaining(key, now) ==>
                && !Unexpired(key, now)
                && maxEntries <= |Live(order, entries, ttl, now)|
                && forall other :: other in Remaining(key, now) ==>
                     k in lastUse && other in lastUse && lastUse[k] < lastUse[other]
    {
      hide Recency, Removed, Live, Lists, PartOf, AllEntriesRight;
      var live := Live(order, entries, ttl, now);
      RemainingIsSound(order, entries, maxEntries, ttl, now, key, lastUse, uses);
      LiveKeepsRecency(order, entries, ttl, now, lastUse, uses);
      RemovedKeepsRecency(live, key, lastUse, uses);
      if live != [] {
        RestIsNewer(live, lastUse, uses);
      }
    }

    ghost predicate Stored(key: Query, results: Results, now: int)
      reads this
    {
      key in entries && entries[key].results == results && entries[key].createdAt == now
    }
  }

  method NewEntry(key: Query, results: Results, now: int) returns (entry: Entry)
    ensures EntryFor(entry, key) && entry.results == results && entry.createdAt == now
  {
    var trigrams := BuildTrigrams(key.bytes);
    entry := Entry(key, trigrams, results, now);
  }

  /** The threshold, in counts: seven of ten of all trigrams are common, or there are none at all. */
  lemma ThresholdIs(a: Query, b: Query)
    ensures var ta, tb := TrigramSet(a.bytes), TrigramSet(b.bytes);
            SIMILARITY_THRESHOLD <= Similarity(a, b) <==> ta + tb == {} || 7 * |ta + tb| <= 10 * |ta * tb|
  {
    var ta, tb := TrigramSet(a.bytes), TrigramSet(b.bytes);
    UnionSize(ta, tb);
    var common, all := |ta * tb|, |ta + tb|;
    hide TrigramSet;
    if ta + tb == {} {
      assert ta == {} && tb == {};
    } else {
      assert Similarity(a, b) == common as real / all as real;
      RatioAtLeast(common, all);
    }
  }

  lemma RatioAtLeast(common: nat, all: nat)
    requires 0 < all
    ensures 0.7 <= common as real / all as real <==> 7 * all <= 10 * common
  {
    Multiplied(0.7, common as real, all as real);
    InTenths(common, all);
  }

  lemma Multiplied(p: real, c: real, n: real)
    requires 0.0 < n
    ensures p <= c / n <==> p * n <= c
  {
    var q := c / n;
    assert q * n == c;
    TimesKeepsOrder(p, q, n);
  }

  lemma InTenths(common: nat, all: nat)
    ensures 0.7 * all as real <= common as real <==> 7 * all <= 10 * common
  {
    assert (7 * all) as real == 7.0 * all as real;
    assert (10 * common) as real == 10.0 * common as real;
  }

  lemma TimesKeepsOrder(p: real, q: real, n: real)
    requires 0.0 < n
    ensures p <= q <==> p * n <= q * n
  {
    if p <= q {
      assert 0.0 <= (q - p) * n;
    } else {
      assert 0.0 < (p - q) * n;
    }
  }

  lemma InLive(order: seq<Query>, entries: map<Query, Entry>, key: Query)
    requires Lists(order, entries)
    ensures key in order <==> key in entries
  {
  }

  lemma PartWithout(a: map<Query, Entry>, key: Query)
    ensures PartOf(a - {key}, a)
  {
  }

  /** Moving a key to the end. */
  lemma UseKeepsValid(order: seq<Query>, entries: map<Query, Entry>, key: Query, lastUse: map<Query, nat>, uses: nat)
    requires Recency(order, lastUse, uses) && Lists(order, entries) && key in entries
    ensures Recency(Removed(order, key) + [key], lastUse[key := uses], uses + 1)
    ensures Lists(Removed(order, key) + [key], entries)
  {
    RemovedKeepsRecency(order, key, lastUse, uses);
    TouchKeepsRecency(Removed(order, key), key, lastUse, uses);
  }

  lemma SimilarityIs(trigrams: seq<nat>, query: Query, entries: map<Query, Entry>, key: Query)
    requires AllEntriesRight(entries) && key in entries && Elements(trigrams) == TrigramSet(query.bytes)
    ensures StrictlyAscending(entries[key].trigrams)
    ensures Similarity(query, key) == Jaccard(Elements(trigrams), Elements(entries[key].trigrams))
  {
    assert EntryFor(entries[key], key);
  }

  lemma PartOfItself(a: map<Query, Entry>)
    ensures PartOf(a, a)
  {
  }

  lemma RightPart(a: map<Query, Entry>, b: map<Query, Entry>)
    requires PartOf(a, b) && AllEntriesRight(b)
    ensures AllEntriesRight(a)
  {
    hide EntryFor;
  }

  lemma PartOfPart(a: map<Query, Entry>, b: map<Query, Entry>, c: map<Query, Entry>)
    requires PartOf(a, b) && PartOf(b, c)
    ensures PartOf(a, c)
  {
  }

  lemma WithoutAbsent(entries: map<Query, Entry>, key: Query)
    requires key !in entries
    ensures entries - {key} == entries
  {
  }

  lemma KeyListed(remaining: seq<Query>, left: map<Query, Entry>, key: Query, entry: Entry)
    requires Lists(remaining, left - {key})
    ensures Lists(remaining + [key], left[key := entry]) && key !in remaining
  {
    assert forall k :: k in remaining + [key] <==> k in remaining || k == key;
  }

  lemma KeyStored(left: map<Query, Entry>, before: map<Query, Entry>, key: Query, entry: Entry)
    requires PartOf(left, before) && AllEntriesRight(before) && EntryFor(entry, key)
    ensures PartOf(left[key := entry] - {key}, before) && AllEntriesRight(left[key := entry])
    ensures |left[key := entry]| == |left| + if key in left then 0 else 1
  {
    hide EntryFor;
    assert left[key := entry].Keys == left.Keys + {key};
    assert |left[key := entry]| == |left[key := entry].Keys| && |left| == |left.Keys|;
  }

  lemma OldestDropped(order: seq<Query>, entries: map<Query, Entry>, lastUse: map<Query, nat>, uses: nat)
    requires Recency(order, lastUse, uses) && Lists(order, entries) && order != []
    ensures Recency(order[1..], lastUse, uses) && Lists(order[1..], entries - {order[0]})
    ensures |entries - {order[0]}| == |order| - 1
  {
    hide Recency;
    RestIsNewer(order, lastUse, uses);
    KeysSize(order[1..], entries - {order[0]}, lastUse, uses);
  }

  lemma KeysSize(order: seq<Query>, entries: map<Query, Entry>, lastUse: map<Query, nat>, uses: nat)
    requires Recency(order, lastUse, uses) && Lists(order, entries)
    ensures |entries| == |order|
  {
    ListSize(order, entries.Keys, lastUse, uses);
    assert |entries.Keys| == |entries|;
  }

  /** What a `Put` leaves is in order, has room for the key, and is made of entries that have not expired. */
  lemma RemainingIsSound(
    order: seq<Query>, entries: map<Query, Entry>, maxEntries: int, ttl: int, now: int, key: Query,
    lastUse: map<Query, nat>, uses: nat)
    requires Recency(order, lastUse, uses) && 0 < maxEntries && Lists(order, entries) && |entries| <= maxEntries
    ensures var live := Live(order, entries, ttl, now);
            var unexpired := map k | k in entries && Fresh(entries[k], ttl, now) :: entries[k];
            && Recency(live, lastUse, uses) && Lists(live, unexpired) && |unexpired| <= maxEntries
            && PartOf(unexpired, entries)
            && Recency(Removed(live, key), lastUse, uses) && Lists(Removed(live, key), unexpired - {key})
  {
    LiveKeepsRecency(order, entries, ttl, now, lastUse, uses);
    var live := Live(order, entries, ttl, now);
    var unexpired := map k | k in entries && Fresh(entries[k], ttl, now) :: entries[k];
    RemovedKeepsRecency(live, key, lastUse, uses);
    SubsetSize(unexpired.Keys, entries.Keys);
    assert |unexpired.Keys| == |unexpired| && |entries.Keys| == |entries|;
  }

  lemma {:induction false} SubsetSize(a: set<Query>, b: set<Query>)
    requires a <= b
    ensures |a| <= |b|
  {
    assert b == a + (b - a);
  }
}
