/**
  The cached search index over hidden tools (pkg/tools/search_tool.go). The index is built from
  a snapshot; registrations can come between a snapshot and the moment it is cached.
 */
module ToolSearch {
  import opened Common
  import opened ToolRegistry

  /** The cached corpus, if there is one, and the version it was built from. */
  datatype Cache = Cache(corpus: Option<seq<Doc>>, version: nat)

  /** What a search over a cache can find. */
  function Corpus(c: Cache): set<Doc> {
    match c.corpus
    case None => {}
    case Some(docs) => set d | d in docs
  }

  datatype Snapshot = Snapshot(docs: seq<Doc>, version: nat)

  /** The locked part that follows the snapshot. */
  function Installed(c: Cache, snap: Snapshot): Cache {
    if c.corpus.Some? && c.version == snap.version then c
    else if snap.docs == [] then Cache(None, snap.version)
    else Cache(Some(snap.docs), snap.version)
  }

  ghost predicate Agrees(c: Cache, r: Registry) {
    c.version == r.version ==> Corpus(c) == HiddenDocs(r)
  }

  class BM25SearchTool {
    const registry: ToolRegistry
    const ttl: int
    var cache: Cache

    constructor (registry: ToolRegistry, ttl: int)
      ensures this.registry == registry && this.ttl == ttl && cache == Cache(None, 0)
    {
      this.registry := registry;
      this.ttl := ttl;
      cache := Cache(None, 0);
    }

    /** When the registry does not change meanwhile: what is searched is exactly the hidden tools. */
    method GetOrBuildEngine() returns (corpus: Option<seq<Doc>>)
      requires Agrees(cache, registry.Contents()) && cache.version <= registry.version && cache.corpus != Some([])
      modifies this`cache
      ensures cache.version == registry.version && corpus == cache.corpus && cache.corpus != Some([])
      ensures Corpus(cache) == HiddenDocs(registry.Contents())
      ensures corpus.None? <==> HiddenDocs(registry.Contents()) == {}
    {
      if cache.corpus.Some? && cache.version == registry.version {
        NonEmptyCorpus(cache);
        return cache.corpus;
      }
      var docs, version := registry.SnapshotHiddenTools();
      corpus := Install(docs, version);
      NonEmptyCorpus(cache);
    }

    /** The part behind the snapshot: another search may have cached that version meanwhile. */
    method Install(docs: seq<Doc>, version: nat) returns (corpus: Option<seq<Doc>>)
      modifies this`cache
      ensures cache == Installed(old(cache), Snapshot(docs, version)) && corpus == cache.corpus
    {
      if cache.corpus.Some? && cache.version == version {
        return cache.corpus;
      }
      if |docs| == 0 {
        cache := Cache(None, version);
        return None;
      }
      cache := Cache(Some(docs), version);
      return cache.corpus;
    }

    /** Unlocks the tools that a search found. */
    method FormatDiscoveryResponse(results: seq<Doc>)
      modifies registry`tools
      ensures registry.Contents() == if results == [] then old(registry.Contents())
                                     else Promoted(old(registry.Contents()), Names(results), ttl)
      ensures registry.tools.Keys == old(registry.tools).Keys
      ensures forall name :: name in registry.tools ==>
                registry.tools[name] ==
                  if !old(registry.tools)[name].isCore && IsNamed(results, name) then old(registry.tools)[name].(ttl := ttl)
                  else old(registry.tools)[name]
    {
      if |results| == 0 {
        return;
      }
      registry.PromoteTools(Names(results), ttl);
      NamesAre(results);
    }
  }

  ghost predicate IsNamed(docs: seq<Doc>, name: string) {
    exists d :: d in docs && d.name == name
  }

  lemma NamesAre(docs: seq<Doc>)
    ensures forall name :: name in Names(docs) <==> IsNamed(docs, name)
  {
    forall name ensures name in Names(docs) <==> IsNamed(docs, name) {
      if name in Names(docs) {
        var i :| 0 <= i < |docs| && Names(docs)[i] == name;
        assert docs[i] in docs;
      }
      if IsNamed(docs, name) {
        var d :| d in docs && d.name == name;
        var i :| 0 <= i < |docs| && docs[i] == d;
        assert Names(docs)[i] == name;
      }
    }
  }

  function Names(docs: seq<Doc>): seq<string> {
    seq(|docs|, i requires 0 <= i < |docs| => docs[i].name)
  }

  // ---------- Registrations during a rebuild ----------

  datatype State = State(registry: Registry, cache: Cache, pending: Option<Snapshot>)

  datatype Step =
    | Change(event: Event)
    | TakeSnapshot(docs: seq<Doc>)  // the hidden tools, in any order
    | Install

  predicate Possible(s: State, step: Step) {
    match step
    case Change(_) => true
    case TakeSnapshot(docs) => s.pending.None? && (set d | d in docs) == HiddenDocs(s.registry)
    case Install => s.pending.Some?
  }

  function Next(s: State, step: Step): State
    requires Possible(s, step)
  {
    match step
    case Change(e) => s.(registry := After(s.registry, e))
    case TakeSnapshot(docs) => s.(pending := Some(Snapshot(docs, s.registry.version)))
    case Install => s.(cache := Installed(s.cache, s.pending.value), pending := None)
  }

  const INITIAL := State(Registry(map[], 0), Cache(None, 0), None)

  ghost predicate IsRun(s: State, steps: seq<Step>, s': State)
    decreases |steps|
  {
    if steps == [] then s == s' else Possible(s, steps[0]) && IsRun(Next(s, steps[0]), steps[1..], s')
  }

  /** `history` has the hidden tools of every version so far. */
  ghost predicate Recorded(s: State, history: seq<set<Doc>>) {
    && |history| == s.registry.version + 1
    && history[s.registry.version] == HiddenDocs(s.registry)
    && s.cache.version < |history|
    && Corpus(s.cache) == history[s.cache.version]
    && (s.cache.corpus.Some? ==> s.cache.corpus.value != [])
    && (s.pending.Some? ==>
          s.pending.value.version < |history|
          && (set d | d in s.pending.value.docs) == history[s.pending.value.version])
  }

  lemma NextRecorded(s: State, step: Step, history: seq<set<Doc>>) returns (history': seq<set<Doc>>)
    requires Recorded(s, history) && Possible(s, step)
    ensures Recorded(Next(s, step), history')
  {
    history' := history;
    match step
    case Change(e) =>
      SameVersionSameDocs(s.registry, e);
      var r := After(s.registry, e);
      assert r.version <= s.registry.version + 1;
      hide HiddenDocs, After;
      if r.version != s.registry.version {
        history' := history + [HiddenDocs(r)];
      }
    case TakeSnapshot(_) =>
    case Install =>
      hide HiddenDocs;
      var snap := s.pending.value;
      assert snap.docs == [] ==> (set d | d in snap.docs) == {};
  }

  lemma {:induction false} RunRecorded(s: State, steps: seq<Step>, s': State, history: seq<set<Doc>>)
    returns (history': seq<set<Doc>>)
    requires IsRun(s, steps, s') && Recorded(s, history)
    ensures Recorded(s', history')
    decreases |steps|
  {
    hide Recorded, Next, Possible;
    history' := history;
    if steps != [] {
      history' := NextRecorded(s, steps[0], history);
      history' := RunRecorded(Next(s, steps[0]), steps[1..], s', history');
    }
  }

  /**
    In every reachable state, with registrations that overwrite tools or change their
    visibility, promotions and ticks between a snapshot and its caching: when the cached version
    is the registry's, the cached corpus is exactly the hidden tools. It never is ahead.
   */
  lemma CacheAgrees(steps: seq<Step>, s: State)
    requires IsRun(INITIAL, steps, s)
    ensures Agrees(s.cache, s.registry) && s.cache.version <= s.registry.version
  {
    assert HiddenDocs(INITIAL.registry) == {};
    var history := RunRecorded(INITIAL, steps, s, [{}]);
  }

  lemma NonEmptyCorpus(c: Cache)
    ensures c.corpus.Some? && c.corpus.value != [] ==> c.corpus.value[0] in Corpus(c)
  {
  }
}
